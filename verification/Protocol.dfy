/** The Executor's handshake: a request line, Ready, a Start document, and then the tool. */
module Protocol {
  import opened Wrappers
  import opened Sequences

  const NEWLINE: Byte := 10
  const MAX_REQUEST_BYTES := 1024 * 1024
  const MAX_CONTROL_BYTES := 8 * 1024

  datatype Request = Request(id: string, body: string)

  datatype Error = ReadFailed | TooLong | BadRequest | BadStart | NotEncodable | WriteFailed | FlushFailed | BackendFailed

  datatype Preflight = Ready(prepared: Request) | Refused | PreflightFailed

  /** The parsers, the encoders and the backend. */
  datatype Backend = Backend(
    parseRequest: seq<Byte> -> Option<Request>,
    preflight: Request -> Preflight,
    encodeReady: string -> Option<seq<Byte>>,
    encodeRefusal: Request -> Option<seq<Byte>>,
    acceptsStart: (seq<Byte>, string) -> bool,
    execute: Request -> Option<seq<Byte>>)

  /** What crosses the Executor's boundary. */
  datatype Event = Took(bytes: seq<Byte>) | Put(bytes: seq<Byte>) | Flushed | Executed(request: Request)

  /** How one write or flush goes; a write that fails may have written some bytes. */
  datatype Fate = Succeeds | Fails(written: nat)

  // ----- lines -----

  /** Through the first newline, or everything. */
  function LineLength(s: seq<Byte>): (n: nat)
    ensures n <= |s|
    ensures NEWLINE !in s[..if n > 0 && s[n - 1] == NEWLINE then n - 1 else n]
    ensures n < |s| ==> n > 0 && s[n - 1] == NEWLINE
  {
    if s == [] then 0 else if s[0] == NEWLINE then 1 else 1 + LineLength(s[1..])
  }

  /** A line's length is where its first newline is. */
  lemma LineLengthIs(s: seq<Byte>, n: nat)
    requires n <= |s| && NEWLINE !in s[..n]
    ensures LineLength(s) >= n
    ensures n < |s| && s[n] == NEWLINE ==> LineLength(s) == n + 1
    ensures n == |s| ==> LineLength(s) == n
  {
    assert forall i | 0 <= i < n :: s[i] == s[..n][i];
    var m := LineLength(s);
    assert m > 0 && m - 1 < n ==> s[m - 1] != NEWLINE;
    assert m > n + 1 ==> s[n] == s[..m - 1][n];
  }

  /** Takes through the first newline, but at most one byte more than the limit. */
  method TakeLine(input: seq<Byte>, limit: nat) returns (bytes: seq<Byte>, rest: seq<Byte>)
    ensures bytes + rest == input
    ensures |bytes| == if LineLength(input) <= limit then LineLength(input) else limit + 1
  {
    var n := 0;
    while n < |input| && n <= limit && input[n] != NEWLINE
      invariant n <= |input| && n <= limit + 1 && NEWLINE !in input[..n]
    {
      assert input[..n + 1] == input[..n] + [input[n]];
      n := n + 1;
    }
    LineLengthIs(input, n);
    if n < |input| && n <= limit {
      n := n + 1;
    }
    bytes, rest := input[..n], input[n..];
  }

  /** Takes everything, but at most one byte more than the limit. */
  method TakeAll(input: seq<Byte>, limit: nat) returns (bytes: seq<Byte>, rest: seq<Byte>)
    ensures bytes + rest == input
    ensures |bytes| == if |input| <= limit then |input| else limit + 1
  {
    var n := 0;
    while n < |input| && n <= limit
      invariant n <= |input| && n <= limit + 1
    {
      n := n + 1;
    }
    bytes, rest := input[..n], input[n..];
  }

  // ----- the boundary -----

  class Session {
    /** What is still to be read; a broken input fails instead of ending. */
    var input: seq<Byte>
    const breaks: bool
    /** How the coming writes and flushes go; the ones after that succeed. */
    var fates: seq<Fate>
    /** What happened, in order. */
    var log: seq<Event>

    constructor (input: seq<Byte>, breaks: bool, fates: seq<Fate>)
      ensures this.input == input && this.breaks == breaks && this.fates == fates && log == []
    {
      this.input, this.breaks, this.fates, log := input, breaks, fates, [];
    }

    /** Reads the first line, which must end within the limit. */
    method ReadDocument(limit: nat) returns (r: Result<seq<Byte>, Error>, ghost bytes: seq<Byte>)
      modifies `input, `log
      ensures log == old(log) + [Took(bytes)] && bytes + input == old(input)
      ensures r.Ok? <==> LineLength(old(input)) <= limit && (breaks ==> NEWLINE in old(input))
      ensures r.Ok? ==> r.value == bytes == FirstLine(old(input)) && input == AfterLine(old(input))
      ensures r.Err? ==> r.error == if LineLength(old(input)) > limit then TooLong else ReadFailed
    {
      var taken, rest := TakeLine(input, limit);
      LineEnds(input);
      bytes := taken;
      input, log := rest, log + [Took(taken)];
      if breaks && |taken| <= limit && (taken == [] || taken[|taken| - 1] != NEWLINE) {
        return Err(ReadFailed), bytes;
      }
      if |taken| > limit {
        return Err(TooLong), bytes;
      }
      r := Ok(taken);
    }

    /** Reads to the end, which must come within the limit. */
    method ReadToEnd(limit: nat) returns (r: Result<seq<Byte>, Error>, ghost bytes: seq<Byte>)
      modifies `input, `log
      ensures log == old(log) + [Took(bytes)] && bytes + input == old(input)
      ensures r.Ok? <==> |old(input)| <= limit && !breaks
      ensures r.Ok? ==> r.value == bytes == old(input) && input == []
      ensures r.Err? ==> r.error == if |old(input)| > limit then TooLong else ReadFailed
    {
      var taken, rest := TakeAll(input, limit);
      bytes := taken;
      input, log := rest, log + [Took(taken)];
      if |taken| > limit {
        return Err(TooLong), bytes;
      }
      if breaks {
        return Err(ReadFailed), bytes;
      }
      r := Ok(taken);
    }

    method WriteAll(bytes: seq<Byte>) returns (ok: bool, ghost part: seq<Byte>)
      modifies `fates, `log
      ensures (ok <==> Goes(old(fates), 0)) && fates == Rest(old(fates), 1)
      ensures log == old(log) + [Put(part)] && part == Through(old(fates), bytes)
    {
      ok := fates == [] || fates[0].Succeeds?;
      var written := if ok || fates[0].written >= |bytes| then bytes else bytes[..fates[0].written];
      part := written;
      log := log + [Put(written)];
      fates := if fates == [] then [] else fates[1..];
    }

    method Flush() returns (ok: bool)
      modifies `fates, `log
      ensures (ok <==> Goes(old(fates), 0)) && fates == Rest(old(fates), 1)
      ensures log == old(log) + if ok then [Flushed] else []
    {
      ok := fates == [] || fates[0].Succeeds?;
      log := log + if ok then [Flushed] else [];
      fates := if fates == [] then [] else fates[1..];
    }

    /** Writes a document and flushes it. */
    method Send(document: seq<Byte>) returns (r: Result<(), Error>, ghost more: seq<Event>)
      modifies `fates, `log
      ensures r.Ok? <==> Delivers(old(fates), 0)
      ensures r.Err? ==> r.error == if Goes(old(fates), 0) then FlushFailed else WriteFailed
      ensures log == old(log) + more && Delivery(more, document, old(fates))
      ensures r.Ok? ==> fates == Rest(old(fates), 2)
    {
      var written, part := WriteAll(document);
      more := [Put(part)];
      if !written {
        return Err(WriteFailed), more;
      }
      var flushed := Flush();
      more := more + if flushed then [Flushed] else [];
      r := if flushed then Ok(()) else Err(FlushFailed);
    }

    method WritePreflight(document: Option<seq<Byte>>) returns (r: Result<(), Error>, ghost more: seq<Event>)
      modifies `fates, `log
      ensures r.Ok? <==> document.Some? && Delivers(old(fates), 0)
      ensures document.None? ==> r == Err(NotEncodable)
      ensures log == old(log) + more && Offered(more, document, old(fates))
      ensures r.Ok? ==> fates == Rest(old(fates), 2)
    {
      if document.None? {
        return Err(NotEncodable), [];
      }
      r, more := Send(document.value);
    }

    /** Says Ready, reads Start and runs the tool. */
    method CompletePreflight(b: Backend, request: Request, id: string) returns (r: Result<(), Error>, ghost more: seq<Event>)
      modifies `input, `fates, `log
      ensures log == old(log) + more
      ensures Starts(b, id, old(input), breaks, old(fates)) ==>
                && input == [] && RanAfterStart(b, more, b.encodeReady(id).value, old(input), request, old(fates))
                && (r.Ok? <==> Responds(b, request, old(fates)))
      ensures !Starts(b, id, old(input), breaks, old(fates)) ==>
                r.Err? && OnlyOffered(more, b.encodeReady(id), old(input), input, old(fates))
    {
      r, more := WritePreflight(b.encodeReady(id));
      if r.Err? {
        OfferedTakes(more, b.encodeReady(id), old(fates));
        return;
      }
      var start, bytes := ReadToEnd(MAX_CONTROL_BYTES);
      StartTaken(more, b.encodeReady(id).value, bytes, old(fates));
      more := more + [Took(bytes)];
      if start.Err? {
        return Err(start.error), more;
      }
      if !b.acceptsStart(start.value, id) {
        return Err(BadStart), more;
      }
      ghost var after;
      r, after := RunTool(b, request);
      assert (more + after)[4..] == after[1..];
      more := more + after;
      RestTwice(old(fates));
    }

    /** Runs the tool and sends its response. */
    method RunTool(b: Backend, request: Request) returns (r: Result<(), Error>, ghost more: seq<Event>)
      modifies `fates, `log
      ensures log == old(log) + more && more != [] && more[0] == Executed(request)
      ensures Offered(more[1..], b.execute(request), old(fates))
      ensures r.Ok? <==> b.execute(request).Some? && Delivers(old(fates), 0)
      ensures b.execute(request).None? ==> r == Err(BackendFailed)
    {
      log := log + [Executed(request)];
      more := [Executed(request)];
      var response := b.execute(request);
      if response.None? {
        assert more[1..] == [];
        return Err(BackendFailed), more;
      }
      ghost var after;
      r, after := Send(response.value);
      assert (more + after)[1..] == after;
      more := more + after;
    }

    /** Reads one request and, if the backend is ready for it, completes its preflight. */
    method ExecuteRequest(b: Backend) returns (r: Result<(), Error>)
      requires log == []
      modifies `input, `fates, `log
      ensures Dispatches(b, old(input), breaks, old(fates)) ==>
                var request := b.parseRequest(FirstLine(old(input))).value;
                && log != [] && log[0] == Took(FirstLine(old(input))) && input == []
                && RanAfterStart(b, log[1..], b.encodeReady(request.id).value, AfterLine(old(input)),
                                 b.preflight(request).prepared, old(fates))
      ensures !Dispatches(b, old(input), breaks, old(fates)) ==>
                NothingExecuted(log) && Taken(log) + input == old(input)
      ensures Requests(b, old(input), breaks) && !Dispatches(b, old(input), breaks, old(fates)) ==>
                && log != [] && log[0] == Took(FirstLine(old(input)))
                && Declined(b, b.parseRequest(FirstLine(old(input))).value, log[1..], AfterLine(old(input)), input, old(fates))
      ensures !Requests(b, old(input), breaks) ==> |log| == 1 && log[0].Took?
      ensures r.Ok? <==> Answers(b, old(input), breaks, old(fates))
    {
      var line, bytes := ReadDocument(MAX_REQUEST_BYTES);
      TakenFirst(bytes, [], input);
      assert log == [Took(bytes)] == [Took(bytes)] + [];
      assert bytes + ([] + input) == old(input);
      if line.Err? {
        return Err(line.error);
      }
      var request := b.parseRequest(line.value);
      if request.None? {
        return Err(BadRequest);
      }
      ghost var more;
      r, more := Answer(b, request.value);
      assert log == [Took(bytes)] + more && log[1..] == more;
      if !Dispatches(b, old(input), breaks, old(fates)) {
        DeclinedTakes(b, request.value, more, AfterLine(old(input)), input, old(fates));
        TakenFirst(bytes, more, input);
      }
    }

    method Answer(b: Backend, request: Request) returns (r: Result<(), Error>, ghost more: seq<Event>)
      modifies `input, `fates, `log
      ensures log == old(log) + more
      ensures Starting(b, request, old(input), breaks, old(fates)) ==>
                && input == []
                && RanAfterStart(b, more, b.encodeReady(request.id).value, old(input), b.preflight(request).prepared, old(fates))
      ensures !Starting(b, request, old(input), breaks, old(fates)) ==>
                Declined(b, request, more, old(input), input, old(fates))
      ensures r.Ok? <==> Answered(b, request, old(input), breaks, old(fates))
    {
      match b.preflight(request) {
        case PreflightFailed =>
          r, more := Err(BackendFailed), [];
        case Ready(prepared) =>
          r, more := CompletePreflight(b, prepared, request.id);
        case Refused =>
          r, more := WritePreflight(b.encodeRefusal(request));
      }
    }
  }

  /** Ready was written and flushed, then Start was read, then the tool ran, once; only its response
      was written after that. */
  ghost predicate RanAfterStart(b: Backend, log: seq<Event>, ready: seq<Byte>, start: seq<Byte>, request: Request,
                                fates: seq<Fate>) {
    && [Put(ready), Flushed, Took(start), Executed(request)] <= log
    && Offered(log[4..], b.execute(request), Rest(fates, 2))
  }

  /** Ready was offered and the tool did not run; what was read was read after Ready was flushed. */
  ghost predicate OnlyOffered(log: seq<Event>, ready: Option<seq<Byte>>, start: seq<Byte>, rest: seq<Byte>, fates: seq<Fate>) {
    if ready.Some? && Delivers(fates, 0)
    then exists taken :: log == [Put(ready.value), Flushed, Took(taken)] && taken + rest == start
    else Offered(log, ready, fates) && rest == start
  }

  /** What a request gets that no tool is run for: a refusal, Ready without an accepted Start, or nothing. */
  ghost predicate Declined(b: Backend, request: Request, log: seq<Event>, start: seq<Byte>, rest: seq<Byte>,
                           fates: seq<Fate>) {
    match b.preflight(request)
    case PreflightFailed => log == [] && rest == start
    case Refused => Offered(log, b.encodeRefusal(request), fates) && rest == start
    case Ready(_) => OnlyOffered(log, b.encodeReady(request.id), start, rest, fates)
  }

  /** The next write and the flush after it succeed. */
  predicate Delivers(fates: seq<Fate>, k: nat) {
    Goes(fates, k) && Goes(fates, k + 1)
  }

  /** What the next write lets through. */
  function Through(fates: seq<Fate>, bytes: seq<Byte>): seq<Byte> {
    if Goes(fates, 0) || fates[0].written >= |bytes| then bytes else bytes[..fates[0].written]
  }

  /** A document written and flushed, as far as that goes. */
  ghost predicate Delivery(log: seq<Event>, document: seq<Byte>, fates: seq<Fate>) {
    if Delivers(fates, 0) then log == [Put(document), Flushed]
    else if Goes(fates, 0) then log == [Put(document)]
    else log == [Put(Through(fates, document))]
  }

  /** A document that could not be made is not written. */
  ghost predicate Offered(log: seq<Event>, document: Option<seq<Byte>>, fates: seq<Fate>) {
    if document.Some? then Delivery(log, document.value, fates) else log == []
  }

  lemma OfferedTakes(log: seq<Event>, document: Option<seq<Byte>>, fates: seq<Fate>)
    requires Offered(log, document, fates)
    ensures Taken(log) == [] && NothingExecuted(log)
  {
    QuietTakes(log);
  }

  lemma StartTaken(log: seq<Event>, ready: seq<Byte>, bytes: seq<Byte>, fates: seq<Fate>)
    requires Delivery(log, ready, fates) && Delivers(fates, 0)
    ensures log + [Took(bytes)] == [Put(ready), Flushed, Took(bytes)]
  {
  }

  lemma DeclinedTakes(b: Backend, request: Request, log: seq<Event>, start: seq<Byte>, rest: seq<Byte>, fates: seq<Fate>)
    requires Declined(b, request, log, start, rest, fates)
    ensures NothingExecuted(log) && Taken(log) + rest == start
  {
    match b.preflight(request) {
      case PreflightFailed =>
      case Refused => OfferedTakes(log, b.encodeRefusal(request), fates);
      case Ready(_) =>
        var ready := b.encodeReady(request.id);
        if ready.Some? && Delivers(fates, 0) {
          var taken :| log == [Put(ready.value), Flushed, Took(taken)] && taken + rest == start;
          QuietTakes([Put(ready.value), Flushed]);
          assert log == [Put(ready.value), Flushed] + [Took(taken)];
          TakenJoin([Put(ready.value), Flushed], Took(taken));
        } else {
          OfferedTakes(log, ready, fates);
        }
    }
  }

  lemma RestTwice(fates: seq<Fate>)
    ensures Delivers(Rest(fates, 2), 0) <==> Delivers(fates, 2)
  {
  }

  predicate Goes(fates: seq<Fate>, k: nat) {
    k < |fates| ==> fates[k].Succeeds?
  }

  function Rest(fates: seq<Fate>, k: nat): seq<Fate> {
    if k <= |fates| then fates[k..] else []
  }

  /** Writing and flushing only. */
  ghost predicate Quiet(log: seq<Event>) {
    forall i | 0 <= i < |log| :: log[i].Put? || log[i].Flushed?
  }

  ghost predicate NothingExecuted(log: seq<Event>) {
    forall i | 0 <= i < |log| :: !log[i].Executed?
  }

  /** All the bytes that were read. */
  function Taken(log: seq<Event>): seq<Byte> {
    if log == [] then []
    else Taken(log[..|log| - 1]) + if log[|log| - 1].Took? then log[|log| - 1].bytes else []
  }

  lemma TakenJoin(log: seq<Event>, e: Event)
    ensures Taken(log + [e]) == Taken(log) + if e.Took? then e.bytes else []
  {
    assert (log + [e])[..|log|] == log;
  }

  lemma {:induction false} TakenAfter(e: Event, log: seq<Event>)
    ensures Taken([e] + log) == (if e.Took? then e.bytes else []) + Taken(log)
    decreases |log|
  {
    if log == [] {
      assert [e] + log == [] + [e];
      TakenJoin([], e);
    } else {
      var init, last := log[..|log| - 1], log[|log| - 1];
      TakenAfter(e, init);
      assert [e] + log == ([e] + init) + [last];
      TakenJoin([e] + init, last);
    }
  }

  lemma TakenFirst(bytes: seq<Byte>, more: seq<Event>, rest: seq<Byte>)
    requires NothingExecuted(more)
    ensures NothingExecuted([Took(bytes)] + more)
    ensures Taken([Took(bytes)] + more) + rest == bytes + (Taken(more) + rest)
  {
    TakenAfter(Took(bytes), more);
    assert bytes + (Taken(more) + rest) == bytes + Taken(more) + rest;
  }

  lemma {:induction false} QuietTakes(log: seq<Event>)
    requires Quiet(log)
    ensures Taken(log) == [] && NothingExecuted(log)
    decreases |log|
  {
    if log != [] {
      QuietTakes(log[..|log| - 1]);
    }
  }

  /** A line ends in a newline exactly if there is one. */
  lemma LineEnds(s: seq<Byte>)
    ensures var n := LineLength(s); NEWLINE in s <==> n > 0 && s[n - 1] == NEWLINE
  {
    var n := LineLength(s);
    assert n == |s| ==> s[..n] == s;
  }

  function FirstLine(input: seq<Byte>): seq<Byte> {
    input[..LineLength(input)]
  }

  function AfterLine(input: seq<Byte>): seq<Byte> {
    input[LineLength(input)..]
  }

  /** Ready can be written and flushed, and what follows is one accepted Start within its limit. */
  predicate Starts(b: Backend, id: string, start: seq<Byte>, breaks: bool, fates: seq<Fate>) {
    && b.encodeReady(id).Some? && Delivers(fates, 0)
    && |start| <= 8_192 && !breaks && b.acceptsStart(start, id)
  }

  /** The tool has a response, which is written and flushed after Ready. */
  predicate Responds(b: Backend, request: Request, fates: seq<Fate>) {
    b.execute(request).Some? && Delivers(fates, 2)
  }

  predicate Starting(b: Backend, request: Request, start: seq<Byte>, breaks: bool, fates: seq<Fate>) {
    b.preflight(request).Ready? && Starts(b, request.id, start, breaks, fates)
  }

  /** The first line is complete, within its limit and a request. */
  predicate Requests(b: Backend, input: seq<Byte>, breaks: bool) {
    LineLength(input) <= 1_048_576 && (breaks ==> NEWLINE in input) && b.parseRequest(FirstLine(input)).Some?
  }

  /** The refusal of a refused request was written and flushed, or the response of a tool that ran. */
  predicate Answered(b: Backend, request: Request, start: seq<Byte>, breaks: bool, fates: seq<Fate>) {
    match b.preflight(request)
    case PreflightFailed => false
    case Refused => b.encodeRefusal(request).Some? && Delivers(fates, 0)
    case Ready(prepared) => Starts(b, request.id, start, breaks, fates) && Responds(b, prepared, fates)
  }

  predicate Answers(b: Backend, input: seq<Byte>, breaks: bool, fates: seq<Fate>) {
    Requests(b, input, breaks) && Answered(b, b.parseRequest(FirstLine(input)).value, AfterLine(input), breaks, fates)
  }

  /** The first line is a request the backend is ready for, and Start follows. */
  predicate Dispatches(b: Backend, input: seq<Byte>, breaks: bool, fates: seq<Fate>) {
    && Requests(b, input, breaks)
    && Starting(b, b.parseRequest(FirstLine(input)).value, AfterLine(input), breaks, fates)
  }
}
