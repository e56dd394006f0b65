/**
 * The queues of deploy/dbx_tunnel.php: chunks are appended to a file as base64 lines and
 * drained from it, each under an exclusive lock, by any number of processes; one worker
 * per session writes what it drains to the target socket.
 */
module Tunnel {
  import opened Options
  import opened Texts
  import opened Bytes
  import opened Base64

  // ---------------------------------------------------------------------- the queue file

  /** What append_chunk writes. */
  function Line(data: seq<byte>): (r: string)
  {
    Encode(data) + "\n"
  }

  /** The decoded lines, undecodable ones skipped. */
  function DecodeLines(lines: seq<string>): (r: seq<byte>)
  {
    if lines == [] then []
    else
      var rest := DecodeLines(lines[1..]);
      if lines[0] == "" then rest
      else match PhpDecode(lines[0]) case None => rest case Some(chunk) => chunk + rest
  }

  /** What drain_chunks returns for the text it read. */
  function Decoded(text: string): (r: seq<byte>)
  {
    DecodeLines(Split(text, '\n'))
  }

  /** The decoding loop of drain_chunks. */
  method DecodeText(text: string) returns (decoded: seq<byte>)
    ensures decoded == Decoded(text)
  {
    hide PhpDecode, Split;
    decoded := [];
    var lines := Split(text, '\n');
    var i := 0;
    while i < |lines|
      invariant 0 <= i <= |lines|
      invariant decoded + DecodeLines(lines[i..]) == Decoded(text)
    {
      assert lines[i..][1..] == lines[i + 1..];
      if lines[i] != "" {
        var chunk := PhpDecode(lines[i]);
        if chunk.Some? { decoded := decoded + chunk.value; }
      }
      i := i + 1;
    }
  }

  /** What one line contributes. */
  function Value(line: string): (r: seq<byte>)
  {
    if line != "" && PhpDecode(line).Some? then PhpDecode(line).value else []
  }

  lemma DecodedLine(line: string, rest: string)
    requires '\n' !in line
    ensures Decoded(line + "\n" + rest) == Value(line) + Decoded(rest)
  {
    hide PhpDecode, Split;
    SplitOf(line, '\n', rest);
    var lines := Split(line + "\n" + rest, '\n');
    assert lines[1..] == Split(rest, '\n');
  }

  /** Empty, or ending with a newline. */
  predicate Whole(text: string)
  {
    text == "" || text[|text| - 1] == '\n'
  }

  lemma FirstLine(text: string) returns (line: string, rest: string)
    requires Whole(text) && text != ""
    ensures '\n' !in line && text == line + "\n" + rest && Whole(rest)
  {
    line := UpTo(text, '\n');
    assert |line| < |text|;
    rest := text[|line| + 1..];
    assert text == line + "\n" + rest;
    if rest != "" { assert rest[|rest| - 1] == text[|text| - 1]; }
  }

  /** Decoding distributes over whole texts. */
  lemma {:induction false} DecodedAppend(text: string, more: string)
    requires Whole(text)
    ensures Decoded(text + more) == Decoded(text) + Decoded(more)
    decreases |text|
  {
    hide Decoded, Value, Whole;
    if text == "" {
      assert text + more == more;
      NothingDecoded();
    } else {
      var line, rest := FirstLine(text);
      DecodedAppend(rest, more);
      DecodedLine(line, rest);
      DecodedLine(line, rest + more);
      assert text + more == line + "\n" + (rest + more);
      assert Value(line) + (Decoded(rest) + Decoded(more)) == Value(line) + Decoded(rest) + Decoded(more);
    }
  }

  /** A line that append_chunk wrote decodes to its chunk. */
  lemma LineDecodes(data: seq<byte>)
    requires data != []
    ensures Decoded(Line(data)) == data && Whole(Line(data))
  {
    hide Encode, Decoded;
    var line := Encode(data);
    EncodeRoundTrip(data);
    forall i | 0 <= i < |line| ensures line[i] != '\n' { assert !IsSpace(line[i]); }
    DecodedLine(line, "");
    assert line + "\n" + "" == Line(data);
    assert Decoded("") == [] by { NothingDecoded(); }
    assert line != "" by { EncodedNonEmpty(data); }
  }

  lemma NothingDecoded()
    ensures Decoded("") == []
  {
    SplitOf("", '\n', "");
  }

  lemma EncodedNonEmpty(data: seq<byte>)
    requires data != []
    ensures Encode(data) != ""
  {
    SextetCount(data);
  }

  // ------------------------------------------------------------------- processes and locks

  /** Where a process is in append_chunk or drain_chunks. */
  datatype Process =
    | Outside
    | WantsAppend(data: seq<byte>) | Appending(data: seq<byte>)
    | WantsDrain | Draining | HasRead(text: string)
    | Leaving

  /** The worker's transfer loop: polling, inside write_all, or gone. */
  datatype Worker = Polling | Writing(data: seq<byte>, offset: nat) | Gone

  /**
   * A queue file with its lock and its users. `appended` and `drained` are the bytes that
   * went in and out so far, in the order of the lock; `received` is what reached the socket.
   */
  datatype State = State(file: string, lock: Option<nat>, users: seq<Process>, appended: seq<byte>, drained: seq<byte>,
    worker: Worker, received: seq<byte>)

  /** The process that is the session's worker. */
  const WORKER: nat := 0

  datatype Step =
    | Post(p: nat, data: seq<byte>)
    | Poll(p: nat)
    | Move(p: nat)
    | Fwrite(written: nat)
    | Fail

  /** On the way to, or in, the critical section of drain_chunks. */
  predicate Drains(u: Process)
  {
    u.WantsDrain? || u.Draining? || u.HasRead?
  }

  predicate Inside(u: Process)
  {
    u.Appending? || u.Draining? || u.HasRead? || u.Leaving?
  }

  function SetUser(s: State, p: nat, u: Process): (out: State)
    requires p < |s.users|
  {
    s.(users := s.users[p := u])
  }

  /** The next statement of process `p` inside append_chunk or drain_chunks. */
  function MoveUser(s: State, p: nat): (out: State)
    requires p < |s.users|
  {
    match s.users[p]
    case Outside => s
    case WantsAppend(data) => if s.lock.None? then SetUser(s.(lock := Some(p)), p, Appending(data)) else s
    case Appending(data) => SetUser(s.(file := s.file + Line(data), appended := s.appended + data), p, Leaving)
    case WantsDrain => if s.lock.None? then SetUser(s.(lock := Some(p)), p, Draining) else s
    case Draining => SetUser(s, p, HasRead(s.file))
    case HasRead(text) =>
      var out := SetUser(s.(file := "", drained := s.drained + Decoded(text)), p, Leaving);
      if p == WORKER && s.worker.Polling? && Decoded(text) != [] then out.(worker := Writing(Decoded(text), 0)) else out
    case Leaving => SetUser(s.(lock := None), p, Outside)
  }

  function Next(s: State, step: Step): (out: State)
  {
    match step
    case Post(p, data) =>
      if p < |s.users| && s.users[p].Outside? && data != [] && p != WORKER then SetUser(s, p, WantsAppend(data)) else s
    case Poll(p) =>
      if p < |s.users| && s.users[p].Outside? && (p == WORKER ==> s.worker.Polling?)
      then SetUser(s, p, WantsDrain)
      else s
    case Move(p) =>
      if p < |s.users| then MoveUser(s, p) else s
    case Fwrite(written) =>
      if s.worker.Writing? && s.worker.offset + written <= |s.worker.data| then
        var end := s.worker.offset + written;
        s.(received := s.received + s.worker.data[s.worker.offset..end],
          worker := if end == |s.worker.data| then Polling else s.worker.(offset := end))
      else s
    case Fail => if s.worker.Writing? then s.(worker := Gone) else s
  }

  function Run(s: State, steps: seq<Step>): (out: State)
  {
    if steps == [] then s else Next(Run(s, steps[..|steps| - 1]), steps[|steps| - 1])
  }

  ghost predicate Initial(s: State)
  {
    && s.file == "" && s.lock.None? && s.appended == [] && s.drained == [] && s.worker.Polling? && s.received == []
    && forall p :: 0 <= p < |s.users| ==> s.users[p].Outside?
  }

  // -------------------------------------------------------------------------- invariants

  /** At most the holder of the lock is inside; what it has read is what is in the file. */
  ghost predicate Exclusive(s: State)
  {
    && (forall p :: 0 <= p < |s.users| && Inside(s.users[p]) ==> s.lock == Some(p))
    && (forall p :: 0 <= p < |s.users| && s.users[p].HasRead? ==> s.users[p].text == s.file)
    && (forall p :: 0 <= p < |s.users| ==>
         (s.users[p].WantsAppend? ==> s.users[p].data != []) && (s.users[p].Appending? ==> s.users[p].data != []))
  }

  /** Bytes drained so far, followed by bytes still queued, are the bytes appended so far. */
  ghost predicate Conserved(s: State)
  {
    Whole(s.file) && s.drained + Decoded(s.file) == s.appended
  }

  /** Only the worker drains. */
  ghost predicate OneWorker(s: State)
  {
    forall p :: 0 <= p < |s.users| && p != WORKER ==> !Drains(s.users[p])
  }

  lemma StepExclusive(s: State, step: Step)
    requires Exclusive(s)
    ensures Exclusive(Next(s, step))
  {
    hide Decoded, Line, MoveUser;
    if step.Move? && step.p < |s.users| { MoveExclusive(s, step.p); }
  }

  lemma MoveExclusive(s: State, p: nat)
    requires Exclusive(s) && p < |s.users|
    ensures Exclusive(MoveUser(s, p))
  {
    hide Decoded, Line;
  }

  lemma WholeAppend(a: string, b: string)
    requires Whole(a) && Whole(b)
    ensures Whole(a + b)
  {}

  lemma StepConserved(s: State, step: Step)
    requires Exclusive(s) && Conserved(s)
    ensures Conserved(Next(s, step))
  {
    hide Decoded, Line;
    if step.Move? && step.p < |s.users| {
      match s.users[step.p] {
        case Appending(data) =>
          LineDecodes(data);
          DecodedAppend(s.file, Line(data));
          WholeAppend(s.file, Line(data));
        case HasRead(text) => NothingDecoded();
        case _ =>
      }
    }
  }

  lemma {:induction false} RunKeeps(s: State, steps: seq<Step>)
    requires Initial(s)
    ensures Exclusive(Run(s, steps)) && Conserved(Run(s, steps))
    decreases |steps|
  {
    hide Next, Decoded, Exclusive, Conserved;
    if steps == [] {
      InitialKeeps(s);
    } else {
      var front := steps[..|steps| - 1];
      RunKeeps(s, front);
      StepExclusive(Run(s, front), steps[|steps| - 1]);
      StepConserved(Run(s, front), steps[|steps| - 1]);
    }
  }

  lemma InitialKeeps(s: State)
    requires Initial(s)
    ensures Exclusive(s) && Conserved(s)
  {
    NothingDecoded();
  }

  /** In every interleaving no queued byte is lost, duplicated or reordered. */
  lemma QueueConserves(s: State, steps: seq<Step>)
    requires Initial(s)
    ensures Run(s, steps).drained + Decoded(Run(s, steps).file) == Run(s, steps).appended
  {
    hide Run, Decoded;
    RunKeeps(s, steps);
  }

  // ---------------------------------------------------------------------------- the socket

  /** What the worker has taken and not yet written. */
  function Pending(w: Worker): (r: seq<byte>)
  {
    if w.Writing? && w.offset <= |w.data| then w.data[w.offset..] else []
  }

  ghost predicate WorkerOk(s: State)
  {
    && (s.worker.Writing? ==> s.worker.offset < |s.worker.data|)
    && (s.worker.Gone? ==> s.received <= s.drained)
    && (!s.worker.Gone? ==> s.received + Pending(s.worker) == s.drained)
    && (WORKER < |s.users| && Drains(s.users[WORKER]) ==> s.worker.Polling?)
  }

  /** Processes other than the worker only append. */
  ghost predicate OnlyWorkerPolls(steps: seq<Step>)
  {
    forall i :: 0 <= i < |steps| && steps[i].Poll? ==> steps[i].p == WORKER
  }

  lemma StepWorker(s: State, step: Step)
    requires WorkerOk(s) && OneWorker(s) && (step.Poll? ==> step.p == WORKER)
    ensures WorkerOk(Next(s, step)) && OneWorker(Next(s, step))
  {
    hide Decoded, Line, MoveUser;
    if step.Move? && step.p < |s.users| {
      MoveWorker(s, step.p);
    } else if step.Fwrite? {
      FwriteWorker(s, step.written);
    }
  }

  lemma MoveWorker(s: State, p: nat)
    requires WorkerOk(s) && OneWorker(s) && p < |s.users|
    ensures WorkerOk(MoveUser(s, p)) && OneWorker(MoveUser(s, p))
  {
    hide Decoded, Line;
  }

  lemma FwriteWorker(s: State, written: nat)
    requires WorkerOk(s) && OneWorker(s)
    ensures WorkerOk(Next(s, Fwrite(written))) && OneWorker(Next(s, Fwrite(written)))
  {
    hide Decoded, Line, MoveUser;
    if s.worker.Writing? && s.worker.offset + written <= |s.worker.data| {
      PartWritten(s.received, s.worker.data, s.worker.offset, s.worker.offset + written);
    }
  }

  lemma PartWritten(before: seq<byte>, data: seq<byte>, offset: nat, end: nat)
    requires offset <= end <= |data|
    ensures before + data[offset..] == before + data[offset..end] + data[end..]
    ensures end == |data| ==> before + data[offset..] == before + data[offset..end] + []
  {
    assert data[offset..] == data[offset..end] + data[end..];
  }

  lemma {:induction false} RunWorker(s: State, steps: seq<Step>)
    requires Initial(s) && OnlyWorkerPolls(steps)
    ensures WorkerOk(Run(s, steps)) && OneWorker(Run(s, steps))
    decreases |steps|
  {
    hide Next, WorkerOk, OneWorker;
    if steps == [] {
      InitialWorker(s);
    } else {
      var front := steps[..|steps| - 1];
      RunWorker(s, front);
      StepWorker(Run(s, front), steps[|steps| - 1]);
    }
  }

  lemma InitialWorker(s: State)
    requires Initial(s)
    ensures WorkerOk(s) && OneWorker(s)
  {}

  /**
   * With one worker the target socket has always received a prefix of what clients posted, even
   * across partial writes.
   */
  lemma SocketReceivesPrefix(s: State, steps: seq<Step>)
    requires Initial(s) && OnlyWorkerPolls(steps)
    ensures Run(s, steps).received <= Run(s, steps).drained <= Run(s, steps).appended
  {
    hide Run, Decoded;
    RunKeeps(s, steps);
    RunWorker(s, steps);
    var t := Run(s, steps);
    assert t.drained <= t.drained + Decoded(t.file);
    assert !t.worker.Gone? ==> t.received <= t.received + Pending(t.worker);
  }

  /** The state after a process took its turn alone for three more statements and left. */
  function Turn(s: State, p: nat): (out: State)
  {
    Next(Next(Next(s, Move(p)), Move(p)), Move(p))
  }

  /** While nobody holds the lock, a client's append takes three statements and queues just its data. */
  lemma PostArrives(s: State, p: nat, data: seq<byte>)
    requires s.lock.None? && p < |s.users| && p != WORKER && s.users[p].Outside? && data != [] && Whole(s.file)
    ensures var t := Turn(Next(s, Post(p, data)), p);
      && t.users == s.users && t.lock.None? && t.worker == s.worker && t.received == s.received
      && Decoded(t.file) == Decoded(s.file) + data && Whole(t.file) && t.appended == s.appended + data
  {
    hide Decoded, Line, Whole;
    LineDecodes(data);
    DecodedAppend(s.file, Line(data));
    WholeAppend(s.file, Line(data));
    var t := Turn(Next(s, Post(p, data)), p);
    assert t.users == s.users;
  }

  /**
   * In every reachable state in which nobody holds the lock and the worker polls, its poll takes four
   * statements and then one complete write, after which the socket has received all that was posted.
   */
  lemma WorkerDelivers(s: State, steps: seq<Step>)
    requires Initial(s) && OnlyWorkerPolls(steps) && |s.users| > 0
    requires var t := Run(s, steps);
      |t.users| > 0 && t.lock.None? && t.worker.Polling? && t.users[WORKER].Outside?
    ensures var t := Run(s, steps);
      var u := Next(Turn(Next(t, Poll(WORKER)), WORKER), Move(WORKER));
      && u.users == t.users && u.lock.None? && u.file == ""
      && Next(u, Fwrite(|Decoded(t.file)|)).received == t.appended == u.appended
      && Next(u, Fwrite(|Decoded(t.file)|)).worker.Polling?
  {
    hide Run, Decoded, Exclusive;
    RunKeeps(s, steps);
    RunWorker(s, steps);
    Delivered(Run(s, steps));
  }

  lemma Delivered(t: State)
    requires |t.users| > 0 && t.lock.None? && t.worker.Polling? && t.users[WORKER].Outside?
    requires Conserved(t) && t.received == t.drained
    ensures var u := Next(Turn(Next(t, Poll(WORKER)), WORKER), Move(WORKER));
      && u.users == t.users && u.lock.None? && u.file == ""
      && Next(u, Fwrite(|Decoded(t.file)|)).received == t.appended == u.appended
      && Next(u, Fwrite(|Decoded(t.file)|)).worker.Polling?
  {
    hide Decoded, Whole;
    var data := Decoded(t.file);
    var u := Next(Turn(Next(t, Poll(WORKER)), WORKER), Move(WORKER));
    assert u.users == t.users;
    assert data[0..|data|] == data && t.received + [] == t.received;
  }

  // --------------------------------------------------------------------------- write_all

  /** A stream whose successive writes accept `accepts[0]`, `accepts[1]`, ... bytes, or fail. */
  class Socket {
    var received: seq<byte>
    var accepts: seq<Option<nat>>

    /** fwrite: None for false, which is also what a stream without further plans gives. */
    method Fwrite(data: seq<byte>) returns (written: Option<nat>)
      modifies this
      ensures written.None? ==> received == old(received)
      ensures written.Some? ==> written.value <= |data| && received == old(received) + data[..written.value]
      ensures written.Some? ==> old(accepts) != [] && accepts == old(accepts)[1..]
    {
      if accepts == [] || accepts[0].None? { return None; }
      var n := if accepts[0].value < |data| then accepts[0].value else |data|;
      received := received + data[..n];
      accepts := accepts[1..];
      return Some(n);
    }
  }

  /** write_all: everything reaches the socket in order, or a prefix of it does and the call throws. */
  method WriteAll(socket: Socket, data: seq<byte>) returns (ok: bool)
    modifies socket
    ensures ok ==> socket.received == old(socket.received) + data
    ensures !ok ==> exists k :: 0 <= k < |data| && socket.received == old(socket.received) + data[..k]
  {
    var offset := 0;
    while offset < |data|
      invariant 0 <= offset <= |data|
      invariant socket.received == old(socket.received) + data[..offset]
      decreases |data| - offset, |socket.accepts|
    {
      var written := socket.Fwrite(data[offset..]);
      if written.None? { return false; }
      assert data[..offset] + data[offset..][..written.value] == data[..offset + written.value];
      offset := offset + written.value;
    }
    assert data[..offset] == data;
    return true;
  }
}
