/**
 The loop that feeds received frames to a session. Frames may arrive while one is being processed, and a
 RESET among them pre-empts everything received before it. Arrivals, answers and losses of the connection
 are the events of a state machine.
 */
module FramePump {
  import opened Bytes
  import opened PackStream
  import opened Session
  import opened SessionRuns
  import opened Wrappers

  const RESET_SIGNATURE: byte := 0x0F

  type Frame = seq<byte>

  /** How a struct is read as a message, if it is one. */
  type Reader = (byte, seq<Value>) -> Option<Message>

  /** Both signatures of RESET are read as RESET, whatever the fields. */
  ghost predicate ReadsReset(reader: Reader) {
    forall fields :: reader(0x0F, fields) == Some(Reset) && reader(0x15, fields) == Some(Reset)
  }

  function Signature(frame: Frame): Option<byte> {
    var decoded := Decode(frame);
    if decoded.Done? && decoded.value.Struct? then Some(decoded.value.signature) else None
  }

  /** An unreadable frame ends the session; a refused one is answered with a failure. */
  datatype Reading = Unreadable | Refused | Carries(msg: Message)

  function Read(frame: Frame, reader: Reader): Reading {
    match Decode(frame)
    case Failed(_) => Unreadable
    case Done(v, consumed) =>
      if consumed != |frame| then Unreadable
      else if !v.Struct? then Refused
      else
        match reader(v.signature, v.fields)
        case None => Refused
        case Some(msg) => Carries(msg)
  }

  /** The first frame that pre-empts. */
  function FirstReset(frames: seq<Frame>): (r: Option<nat>)
    ensures r.Some? ==> r.value < |frames| && Signature(frames[r.value]) == Some(RESET_SIGNATURE)
    ensures forall i | 0 <= i < (if r.Some? then r.value else |frames|) :: Signature(frames[i]) != Some(RESET_SIGNATURE)
  {
    if frames == [] then None
    else if Signature(frames[0]) == Some(RESET_SIGNATURE) then Some(0)
    else
      match FirstReset(frames[1..])
      case None => None
      case Some(i) => Some(1 + i)
  }

  // ---------- The state machine ----------

  /** What became of a frame that is no longer pending. */
  datatype Fate = Processed | Interrupted | Dropped | Fatal

  /** A lost connection leaves the loop by its end, where an open transaction is rolled back; an unreadable
      frame and a failed write leave the function at once. */
  datatype Ending = Broke | Aborted

  /** Beside the loop's own `session`, `pending` and `current`: everything received so far, the fate of the
      first frames and the session after each, the messages handled, and the executor's calls. */
  datatype Pump = Pump(
    session: SessionState,
    pending: seq<Frame>,
    current: Option<Frame>,
    received: seq<Frame>,
    fates: seq<Fate>,
    after: seq<SessionState>,
    done: seq<nat>,
    inputs: seq<Input>,
    calls: seq<Call>,
    ending: Option<Ending>)

  function NewPump(session: SessionState): Pump {
    Pump(session, [], None, [], [], [], [], [], [], None)
  }

  /** `started` says whether the query of an unfinished RUN had already been handed to the executor. */
  datatype Event =
    | Arrive(frames: seq<Frame>, started: bool)
    | Next
    | Finish(answers: Answers)
    | Lose(started: bool)
    | WriteFails

  predicate Enabled(p: Pump, e: Event) {
    && p.ending == None
    && (e.Arrive? ==> p.current.Some? || p.pending == [])
    && (e.Next? ==> p.current == None && p.pending != [])
    && (e.Finish? ==> p.current.Some?)
    && (e.WriteFails? ==> p.current == None && p.pending == [])
  }

  function Copies<T>(n: nat, x: T): (r: seq<T>)
    ensures |r| == n && forall i | 0 <= i < n :: r[i] == x
  {
    seq(n, _ => x)
  }

  /** The call that an unfinished message has made. */
  function InFlight(p: Pump, started: bool, reader: Reader): seq<Call> {
    if started && p.current.Some? && Read(p.current.value, reader).Carries? && Read(p.current.value, reader).msg.Run?
    then RunCalls(p.session, Read(p.current.value, reader).msg) else []
  }

  function Preempt(p: Pump, frames: seq<Frame>, reset: nat, started: bool, reader: Reader): Pump
    requires reset <= |frames|
  {
    var gone := |p.pending| + reset;
    p.(pending := frames[reset..], current := None, received := p.received + frames,
       fates := p.fates + [Interrupted] + Copies(gone, Dropped), after := p.after + Copies(gone + 1, p.session),
       calls := p.calls + InFlight(p, started, reader))
  }

  function Process(p: Pump, ans: Answers, reader: Reader): Pump
    requires p.current.Some? && WellIndexed(p.session)
  {
    match Read(p.current.value, reader)
    case Unreadable =>
      p.(current := None, fates := p.fates + [Fatal], after := p.after + [p.session], ending := Some(Aborted))
    case Refused => p.(current := None, fates := p.fates + [Processed], after := p.after + [p.session])
    case Carries(msg) =>
      var stepped := Step(p.session, msg, ans);
      p.(session := stepped.session, current := None, fates := p.fates + [Processed], after := p.after + [stepped.session],
         done := p.done + [|p.fates|], inputs := p.inputs + [Input(msg, ans)], calls := p.calls + stepped.calls)
  }

  function Happen(p: Pump, e: Event, reader: Reader): Pump
    requires Enabled(p, e) && WellIndexed(p.session)
  {
    match e
    case Arrive(frames, started) =>
      var reset := FirstReset(frames);
      if p.current.Some? && reset.Some? then Preempt(p, frames, reset.value, started, reader)
      else p.(pending := p.pending + frames, received := p.received + frames)
    case Next => p.(current := Some(p.pending[0]), pending := p.pending[1..])
    case Finish(answers) => Process(p, answers, reader)
    case Lose(started) =>
      p.(session := WithoutTransaction(p.session), calls := p.calls + InFlight(p, started, reader) + RollbackCalls(p.session),
         ending := Some(Broke))
    case WriteFails => p.(ending := Some(Aborted))
  }

  // ---------- What every state keeps ----------

  /** The frames received are those with a fate, the current one, and the pending ones, in this order. */
  ghost predicate Layout(p: Pump) {
    && |p.fates| <= |p.received| && |p.after| == |p.fates|
    && p.received == p.received[..|p.fates|] + (if p.current.Some? then [p.current.value] else []) + p.pending
  }

  /** The frame begins with a struct of the signature. */
  ghost predicate HasSignature(frame: Frame, signature: byte) {
    Decode(frame).Done? && Decode(frame).value.Struct? && Decode(frame).value.signature == signature
  }

  ghost predicate IsReset(frame: Frame) {
    HasSignature(frame, 0x0F)
  }

  /** The signature that older clients send. */
  ghost predicate IsLegacyReset(frame: Frame) {
    HasSignature(frame, 0x15)
  }

  /** Whatever was not processed has a RESET behind it. */
  ghost predicate ResetsAhead(p: Pump)
    requires |p.fates| <= |p.received|
  {
    forall i | 0 <= i < |p.fates| && (p.fates[i] == Interrupted || p.fates[i] == Dropped) ::
      exists j :: i < j < |p.received| && IsReset(p.received[j])
  }

  ghost predicate Clean(s: SessionState) {
    s.transaction == None && s.cursors == map[] && s.lastQid == None
  }

  /** The frames processed were readable, and a RESET left a clean session. */
  ghost predicate ProcessedOk(p: Pump, reader: Reader)
    requires |p.fates| <= |p.received| && |p.after| == |p.fates|
  {
    && (forall i | 0 <= i < |p.fates| && p.fates[i] == Processed ::
          && Read(p.received[i], reader) != Unreadable
          && (Read(p.received[i], reader) == Carries(Reset) ==> Clean(p.after[i])))
    && (forall i | 0 <= i < |p.fates| && p.fates[i] == Fatal :: p.ending == Some(Aborted))
  }

  /** The messages handled are those of the processed frames, each once, in the order received. */
  ghost predicate InOrderOnce(p: Pump, reader: Reader)
    requires |p.fates| <= |p.received|
  {
    && |p.done| == |p.inputs|
    && (forall k | 0 <= k < |p.done| ::
          p.done[k] < |p.fates| && p.fates[p.done[k]] == Processed
          && Read(p.received[p.done[k]], reader) == Carries(p.inputs[k].msg))
    && (forall k, l | 0 <= k < l < |p.done| :: p.done[k] < p.done[l])
    && (forall i | 0 <= i < |p.fates| && p.fates[i] == Processed && Read(p.received[i], reader).Carries? :: i in p.done)
  }

  ghost predicate Good(p: Pump, start: SessionState, reader: Reader) {
    && Layout(p) && ResetsAhead(p) && ProcessedOk(p, reader) && InOrderOnce(p, reader)
    && Well(start) && start.transaction == None && Well(p.session)
    && p.session == (if p.ending == Some(Broke) then WithoutTransaction(After(start, p.inputs)) else After(start, p.inputs))
    && AcceptAll(Idle, p.calls) == PhaseOf(p.session)
  }

  lemma {:induction false} AfterOne(s: SessionState, inputs: seq<Input>, x: Input)
    requires Well(s)
    ensures After(s, inputs + [x]) == Step(After(s, inputs), x.msg, x.answers).session
    decreases |inputs|
  {
    hide Step, Well;
    WellIsIndexed(s);
    if inputs == [] {
      assert [x][1..] == [];
      StepKeepsWell(s, x.msg, x.answers);
    } else {
      StepKeepsWell(s, inputs[0].msg, inputs[0].answers);
      assert (inputs + [x])[1..] == inputs[1..] + [x];
      AfterOne(Step(s, inputs[0].msg, inputs[0].answers).session, inputs[1..], x);
    }
  }

  lemma InFlightAccepted(p: Pump, started: bool, reader: Reader)
    ensures AcceptAll(PhaseOf(p.session), InFlight(p, started, reader)) == PhaseOf(p.session)
  {
    hide Read;
  }

  lemma RollbackAccepted(s: SessionState)
    ensures AcceptAll(PhaseOf(s), RollbackCalls(s)) == Idle && PhaseOf(WithoutTransaction(s)) == Idle
  {
  }

  lemma LoseKeepsCalls(p: Pump, started: bool, reader: Reader)
    requires AcceptAll(Idle, p.calls) == PhaseOf(p.session)
    ensures AcceptAll(Idle, p.calls + InFlight(p, started, reader) + RollbackCalls(p.session)) == Idle
    ensures AcceptAll(Idle, p.calls + InFlight(p, started, reader)) == PhaseOf(p.session)
  {
    hide AcceptAll, PhaseOf, InFlight, RollbackCalls;
    InFlightAccepted(p, started, reader);
    RollbackAccepted(p.session);
    AcceptAppend(Idle, p.calls, InFlight(p, started, reader));
    AcceptAppend(Idle, p.calls + InFlight(p, started, reader), RollbackCalls(p.session));
  }

  lemma ArriveIsGood(p: Pump, frames: seq<Frame>, start: SessionState, reader: Reader)
    requires Good(p, start, reader)
    ensures Good(p.(pending := p.pending + frames, received := p.received + frames), start, reader)
  {
    hide Read, IsReset, Clean, Well, After, AcceptAll, PhaseOf;
    var p' := p.(pending := p.pending + frames, received := p.received + frames);
    assert forall i | 0 <= i < |p.received| :: p'.received[i] == p.received[i];
    assert p'.received[..|p.fates|] == p.received[..|p.fates|];
  }

  lemma NextIsGood(p: Pump, start: SessionState, reader: Reader)
    requires Good(p, start, reader) && p.current == None && p.pending != []
    ensures Good(p.(current := Some(p.pending[0]), pending := p.pending[1..]), start, reader)
  {
    hide Read, IsReset, Clean, Well, After, AcceptAll, PhaseOf;
    assert p.pending == [p.pending[0]] + p.pending[1..];
  }

  /** Where a pre-emption puts the frames. */
  lemma PreemptShape(p: Pump, frames: seq<Frame>, reset: nat, started: bool, reader: Reader)
    requires Layout(p) && p.current.Some? && reset < |frames|
    ensures var p', m, n := Preempt(p, frames, reset, started, reader), |p.fates|, |p.received| + reset;
      && Layout(p') && |p'.fates| == |p'.after| == n < |p'.received| && p'.received[n] == frames[reset]
      && (forall i | 0 <= i < |p.received| :: p'.received[i] == p.received[i])
      && (forall i | 0 <= i < m :: p'.fates[i] == p.fates[i] && p'.after[i] == p.after[i])
      && (forall i | m <= i < n :: p'.fates[i] == Interrupted || p'.fates[i] == Dropped)
  {
    hide InFlight;
    var p', n := Preempt(p, frames, reset, started, reader), |p.received| + reset;
    assert |p'.fates| == n;
    assert p'.received[..n] == p.received + frames[..reset];
    assert p'.received == p'.received[..n] + frames[reset..];
  }

  lemma PreemptIsGood(p: Pump, frames: seq<Frame>, reset: nat, started: bool, start: SessionState, reader: Reader)
    requires Good(p, start, reader) && p.current.Some? && p.ending == None
    requires reset < |frames| && IsReset(frames[reset])
    ensures Good(Preempt(p, frames, reset, started, reader), start, reader)
  {
    hide Read, IsReset, Clean, Well, After, AcceptAll, PhaseOf, InFlight, Preempt, Layout;
    LayoutLengths(p);
    PreemptShape(p, frames, reset, started, reader);
    LoseKeepsCalls(p, started, reader);
    PreemptKeeps(p, frames, reset, started, reader);
  }

  lemma PreemptKeeps(p: Pump, frames: seq<Frame>, reset: nat, started: bool, reader: Reader)
    requires reset <= |frames|
    ensures var p' := Preempt(p, frames, reset, started, reader);
      && p'.session == p.session && p'.ending == p.ending && p'.done == p.done && p'.inputs == p.inputs
      && p'.calls == p.calls + InFlight(p, started, reader)
  {
  }

  /** What processing the current frame does to the history. */
  lemma ProcessShape(p: Pump, ans: Answers, reader: Reader)
    requires Layout(p) && p.current.Some? && WellIndexed(p.session)
    ensures var p', n := Process(p, ans, reader), |p.fates|;
      && p'.received == p.received && p'.pending == p.pending && p'.current == None
      && n < |p.received| && p.received[n] == p.current.value
      && |p'.fates| == |p'.after| == n + 1 && p'.fates[..n] == p.fates && p'.after[..n] == p.after
      && (p'.fates[n] == if Read(p.received[n], reader) == Unreadable then Fatal else Processed)
  {
    hide Read, Step, WellIndexed;
    assert p.received[|p.fates|] == p.current.value;
  }

  lemma ProcessLayout(p: Pump, ans: Answers, reader: Reader)
    requires Layout(p) && ResetsAhead(p) && p.current.Some? && WellIndexed(p.session)
    ensures Layout(Process(p, ans, reader)) && ResetsAhead(Process(p, ans, reader))
  {
    hide Read, Process, IsReset, WellIndexed;
    ProcessShape(p, ans, reader);
    var p', n := Process(p, ans, reader), |p.fates|;
    assert forall i | 0 <= i < n :: p'.fates[i] == p'.fates[..n][i];
    assert p'.received[..n + 1] == p.received[..n] + [p.current.value];
  }

  lemma ProcessResets(p: Pump, ans: Answers, reader: Reader)
    requires Layout(p) && ProcessedOk(p, reader) && p.current.Some? && p.ending == None && WellIndexed(p.session)
    ensures Layout(Process(p, ans, reader)) ==> ProcessedOk(Process(p, ans, reader), reader)
  {
    hide Read, Clean, Step, WellIndexed, Layout;
    ProcessShape(p, ans, reader);
    ResetCleans(p.session, ans);
    var p', n := Process(p, ans, reader), |p.fates|;
    assert forall i | 0 <= i < n :: p'.fates[i] == p.fates[i] && p'.after[i] == p.after[i];
  }

  lemma ProcessInOrder(p: Pump, ans: Answers, reader: Reader)
    requires Layout(p) && InOrderOnce(p, reader) && p.current.Some? && WellIndexed(p.session)
    ensures |Process(p, ans, reader).fates| <= |p.received| && InOrderOnce(Process(p, ans, reader), reader)
  {
    hide Read, Step, WellIndexed, Layout;
    ProcessShape(p, ans, reader);
    var p', n := Process(p, ans, reader), |p.fates|;
    assert forall i | 0 <= i < n :: p'.fates[i] == p.fates[i];
    if Read(p.current.value, reader).Carries? {
      assert p'.done == p.done + [n] && p'.done[|p.done|] == n;
      assert forall k | 0 <= k < |p.done| :: p'.done[k] == p.done[k] && p'.inputs[k] == p.inputs[k];
    } else {
      assert p'.done == p.done && p'.inputs == p.inputs;
    }
  }

  lemma LayoutLengths(p: Pump)
    requires Layout(p)
    ensures |p.fates| <= |p.received| && |p.after| == |p.fates|
  {
  }

  lemma ProcessIsGood(p: Pump, ans: Answers, start: SessionState, reader: Reader)
    requires Good(p, start, reader) && p.current.Some? && p.ending == None && WellIndexed(p.session)
    ensures Good(Process(p, ans, reader), start, reader)
  {
    hide Read, Layout, ResetsAhead, ProcessedOk, InOrderOnce, Well, After, AcceptAll, PhaseOf, Step, WellIndexed;
    ProcessLayout(p, ans, reader);
    ProcessResets(p, ans, reader);
    ProcessInOrder(p, ans, reader);
    LayoutLengths(p);
    var reading := Read(p.current.value, reader);
    if reading.Carries? {
      StepKeepsWell(p.session, reading.msg, ans);
      StepAccepted(p.session, reading.msg, ans);
      AcceptAppend(Idle, p.calls, Step(p.session, reading.msg, ans).calls);
      AfterOne(start, p.inputs, Input(reading.msg, ans));
    }
  }

  lemma ResetCleans(s: SessionState, ans: Answers)
    requires WellIndexed(s)
    ensures Clean(Step(s, Reset, ans).session)
  {
  }

  lemma LoseIsGood(p: Pump, started: bool, start: SessionState, reader: Reader)
    requires Good(p, start, reader) && p.ending == None && WellIndexed(p.session)
    ensures Good(Happen(p, Lose(started), reader), start, reader)
  {
    hide Read, IsReset, Clean, After, AcceptAll, InFlight, RollbackCalls;
    LoseKeepsCalls(p, started, reader);
    RollbackAccepted(p.session);
  }

  lemma WriteFailsIsGood(p: Pump, start: SessionState, reader: Reader)
    requires Good(p, start, reader) && p.ending == None
    ensures Good(p.(ending := Some(Aborted)), start, reader)
  {
    hide Read, IsReset, Clean, After, AcceptAll, Well, PhaseOf;
  }

  lemma HappenIsGood(p: Pump, e: Event, start: SessionState, reader: Reader)
    requires Good(p, start, reader) && Enabled(p, e)
    ensures WellIndexed(p.session) && Good(Happen(p, e, reader), start, reader)
  {
    hide Good, Preempt, Process, InFlight, RollbackCalls, WellIndexed;
    GoodIsWell(p, start, reader);
    match e
    case Arrive(frames, started) =>
      ArriveIsGood(p, frames, start, reader);
      var reset := FirstReset(frames);
      if p.current.Some? && reset.Some? {
        PreemptIsGood(p, frames, reset.value, started, start, reader);
      }
    case Next => NextIsGood(p, start, reader);
    case Finish(answers) => ProcessIsGood(p, answers, start, reader);
    case Lose(started) => LoseIsGood(p, started, start, reader);
    case WriteFails => WriteFailsIsGood(p, start, reader);
  }

  lemma GoodIsWell(p: Pump, start: SessionState, reader: Reader)
    requires Good(p, start, reader)
    ensures Well(p.session) && WellIndexed(p.session)
  {
    hide Layout, ResetsAhead, ProcessedOk, InOrderOnce, After, AcceptAll, PhaseOf;
  }

  // ---------- Whole runs ----------

  /** The state after a run, if every event could happen where it did. */
  ghost function Pumped(p: Pump, events: seq<Event>, start: SessionState, reader: Reader): (r: Option<Pump>)
    requires Good(p, start, reader)
    ensures r.Some? ==> Good(r.value, start, reader)
    decreases |events|
  {
    hide Good, Happen, Enabled;
    if events == [] then Some(p)
    else if !Enabled(p, events[0]) then None
    else
      HappenIsGood(p, events[0], start, reader);
      Pumped(Happen(p, events[0], reader), events[1..], start, reader)
  }

  lemma NewPumpIsGood(authEnabled: bool, counted: bool, reader: Reader)
    ensures var start := NewSession(authEnabled, counted); Good(NewPump(start), start, reader)
  {
  }

  /** Every run keeps the order of frames, the order of the executor's calls, and a RESET behind whatever was dropped. */
  lemma PumpIsGood(authEnabled: bool, counted: bool, events: seq<Event>, reader: Reader)
    ensures var start := NewSession(authEnabled, counted);
      Good(NewPump(start), start, reader)
      && var end := Pumped(NewPump(start), events, start, reader); end.Some? ==> Good(end.value, start, reader)
  {
    hide Good, Pumped;
    NewPumpIsGood(authEnabled, counted, reader);
  }

  lemma ResetIsRead(frame: Frame, reader: Reader)
    requires ReadsReset(reader) && IsReset(frame) && Read(frame, reader) != Unreadable
    ensures Read(frame, reader) == Carries(Reset)
  {
  }

  /** When everything received has been dealt with and the connection is still open, every frame that was not
      processed has a processed RESET behind it, which left no transaction and no cursor. */
  lemma DroppedMeansReset(p: Pump, start: SessionState, reader: Reader, i: nat)
    requires Good(p, start, reader) && ReadsReset(reader)
    requires p.ending == None && p.current == None && p.pending == []
    requires i < |p.fates| && p.fates[i] != Processed
    ensures |p.received| == |p.fates| == |p.after|
    ensures exists j :: i < j < |p.fates| && IsReset(p.received[j]) && p.fates[j] == Processed && Clean(p.after[j])
    decreases |p.fates| - i
  {
    hide Read, IsReset, Clean, Well, After, AcceptAll, PhaseOf, ReadsReset;
    var j :| i < j < |p.received| && IsReset(p.received[j]);
    if p.fates[j] == Processed {
      ResetIsRead(p.received[j], reader);
    } else {
      DroppedMeansReset(p, start, reader, j);
    }
  }

  lemma NothingOpen(log: seq<Call>)
    ensures NoneOpenAt(log, 0)
  {
  }

  /** The executor has a transaction open exactly while the session holds one. */
  lemma OpenMeansHeld(p: Pump, start: SessionState, reader: Reader)
    requires Good(p, start, reader)
    ensures Orderly(p.calls)
    ensures NoneOpenAt(p.calls, |p.calls|) <==> p.session.transaction == None
  {
    hide Layout, ResetsAhead, ProcessedOk, InOrderOnce, Well, After, AcceptAll, OpenAt, NoneOpenAt;
    assert p.calls[0..] == p.calls;
    NothingOpen(p.calls);
    AcceptedIsOrderly(p.calls, 0, Idle);
    if p.session.transaction.Some? {
      OpenIsNotNone(p.calls, |p.calls|, p.session.transaction.value);
    }
  }

  /** An event that ends the session leaves no transaction open exactly if the loop broke, or none was held when
      the event came. */
  lemma TransactionsAtTheEnd(p: Pump, e: Event, start: SessionState, reader: Reader)
    requires Good(p, start, reader) && Enabled(p, e)
    ensures WellIndexed(p.session)
    ensures var p' := Happen(p, e, reader);
      && Orderly(p'.calls)
      && (p'.ending.Some? ==>
            (NoneOpenAt(p'.calls, |p'.calls|) <==> p'.ending == Some(Broke) || p.session.transaction == None))
  {
    hide Good, FirstReset, Read, Step, InFlight, RollbackCalls, OpenAt, NoneOpenAt, Orderly, WellIndexed;
    HappenIsGood(p, e, start, reader);
    OpenMeansHeld(Happen(p, e, reader), start, reader);
  }

  /** What becomes of the frame being processed: bytes that are not exactly one value end the session, a value that is
      no message changes nothing, and a message is handled by the session. */
  lemma FrameIsHandled(p: Pump, ans: Answers, reader: Reader)
    requires WellIndexed(p.session) && p.ending == None && p.current.Some?
    ensures var p', d, size := Happen(p, Finish(ans), reader), Decode(p.current.value), |p.current.value|;
      && p'.current == None && p'.pending == p.pending
      && if d.Failed? || d.consumed < size then p'.ending == Some(Aborted) && p'.session == p.session && p'.calls == p.calls
         else if !d.value.Struct? || reader(d.value.signature, d.value.fields) == None then
           p'.ending == None && p'.session == p.session && p'.calls == p.calls
         else
           var stepped := Step(p.session, reader(d.value.signature, d.value.fields).value, ans);
           p'.ending == None && p'.session == stepped.session && p'.calls == p.calls + stepped.calls
  {
    hide Decode, Step, WellIndexed;
  }

  /** A RESET among the frames that arrive while one is being processed pre-empts it, everything pending, and what
      arrived before it; without one the frames wait. */
  lemma ResetPreempts(p: Pump, frames: seq<Frame>, started: bool, r: nat, start: SessionState, reader: Reader)
    requires Good(p, start, reader) && p.ending == None && p.current.Some?
    requires r <= |frames| && (r < |frames| ==> IsReset(frames[r])) && forall i | 0 <= i < r :: !IsReset(frames[i])
    ensures Enabled(p, Arrive(frames, started)) && WellIndexed(p.session)
    ensures var p' := Happen(p, Arrive(frames, started), reader);
      && p'.received == p.received + frames && p'.session == p.session && p'.ending == None
      && if r == |frames| then p'.current == p.current && p'.pending == p.pending + frames && p'.fates == p.fates
         else p'.current == None && p'.pending == frames[r..] && |p'.fates| == |p.received| + r
              && p'.fates[..|p.fates| + 1] == p.fates + [Interrupted]
              && forall i | |p.fates| < i < |p'.fates| :: p'.fates[i] == Dropped
  {
    hide Read, Clean, Well, After, AcceptAll, PhaseOf, InFlight, WellIndexed, Decode;
    GoodIsWell(p, start, reader);
    var first := FirstReset(frames);
    forall i | 0 <= i < |frames| ensures IsReset(frames[i]) <==> Signature(frames[i]) == Some(RESET_SIGNATURE) {
      ResetSignature(frames[i]);
    }
    assert if r == |frames| then first == None else first == Some(r);
  }

  lemma ResetSignature(frame: Frame)
    ensures IsReset(frame) <==> Signature(frame) == Some(RESET_SIGNATURE)
  {
  }

  /** A query that is pre-empted or cut off after it was handed over has made the call it would have made. */
  lemma StartedQueriesCall(p: Pump, reader: Reader, ans: Answers)
    requires WellIndexed(p.session) && p.current.Some? && Read(p.current.value, reader).Carries? && ans.run.TaskFailed?
    ensures var msg := Read(p.current.value, reader).msg;
      InFlight(p, true, reader) == if msg.Run? then Step(p.session, msg, ans).calls else []
    ensures InFlight(p, false, reader) == []
  {
    hide Read, WellIndexed;
  }

  /** A lost connection rolls the open transaction back. */
  lemma LostConnectionRollsBack(p: Pump, started: bool, start: SessionState, reader: Reader)
    requires Good(p, start, reader) && p.ending == None
    ensures Enabled(p, Lose(started)) && WellIndexed(p.session)
    ensures var p' := Happen(p, Lose(started), reader);
      && p'.ending == Some(Broke) && p'.session.transaction == None
      && p'.calls == p.calls + InFlight(p, started, reader)
                     + if p.session.transaction.Some? then [RollbackCall(p.session.transaction.value)] else []
  {
    hide Layout, ResetsAhead, ProcessedOk, InOrderOnce, Read, After, AcceptAll, InFlight, WellIndexed;
    GoodIsWell(p, start, reader);
  }

  const BEGIN_SIGNATURE: byte := 0x11

  /** BEGIN with an empty map of metadata. */
  const BEGIN_FRAME: Frame := [0xB1, 0x11, 0xA0]

  /** A float without its eight bytes. */
  const CUT_FRAME: Frame := [0xC1]

  lemma EmptyMapReads()
    ensures Decode([0xA0]) == Done(Map([]), 1)
  {
    hide DecodeAll;
    assert DecodeEntries([0xA0][1..], 0) == Done([], 0);
  }

  lemma BeginFieldsRead()
    ensures DecodeAll([0xA0], 1) == Done([Map([])], 1)
  {
    hide Decode;
    EmptyMapReads();
    assert DecodeAll([0xA0][1..], 0) == Done([], 0);
    var fields := [Map([])];
    assert fields + [] == fields;
  }

  lemma BeginFrameReads()
    ensures Decode(BEGIN_FRAME) == Done(Struct(BEGIN_SIGNATURE, [Map([])]), 3)
  {
    hide DecodeAll, DecodeEntries;
    assert BEGIN_FRAME[2..] == [0xA0];
    BeginFieldsRead();
  }

  lemma CutFrameReads()
    ensures Decode(CUT_FRAME).Failed?
  {
  }

  lemma FrameReads(frame: Frame, reader: Reader)
    ensures frame == CUT_FRAME ==> Read(frame, reader) == Unreadable
    ensures frame == BEGIN_FRAME && reader(BEGIN_SIGNATURE, [Map([])]) == Some(Begin(None)) ==>
      Read(frame, reader) == Carries(Begin(None))
  {
    hide Decode;
    BeginFrameReads();
    CutFrameReads();
  }

  /** One event after the other. */
  lemma PumpedOne(p: Pump, events: seq<Event>, start: SessionState, reader: Reader)
    requires Good(p, start, reader) && events != [] && Enabled(p, events[0])
    ensures WellIndexed(p.session) && Good(Happen(p, events[0], reader), start, reader)
    ensures Pumped(p, events, start, reader) == Pumped(Happen(p, events[0], reader), events[1..], start, reader)
  {
    hide Good, Happen, Enabled;
    HappenIsGood(p, events[0], start, reader);
  }

  /** A cut frame behind BEGIN ends the session with the transaction open, since this exit skips the rollback. */
  lemma AbortLeavesTheTransactionOpen(counted: bool, ans: Answers, reader: Reader)
    requires ans.begin.Ok? && reader(BEGIN_SIGNATURE, [Map([])]) == Some(Begin(None))
    ensures var start := NewSession(false, counted);
      var events := [Arrive([BEGIN_FRAME, CUT_FRAME], false), Next, Finish(ans), Next, Finish(ans)];
      && Good(NewPump(start), start, reader)
      && var end := Pumped(NewPump(start), events, start, reader);
         && end.Some? && end.value.ending == Some(Aborted) && end.value.session.transaction == Some(ans.begin.value)
         && !NoneOpenAt(end.value.calls, |end.value.calls|)
  {
    hide Good, Read, NoneOpenAt, Orderly, FirstReset;
    var start := NewSession(false, counted);
    NewPumpIsGood(false, counted, reader);
    FrameReads(BEGIN_FRAME, reader);
    FrameReads(CUT_FRAME, reader);
    var p0, e0 := NewPump(start), Arrive([BEGIN_FRAME, CUT_FRAME], false);
    PumpedOne(p0, [e0, Next, Finish(ans), Next, Finish(ans)], start, reader);
    var p1 := Happen(p0, e0, reader);
    assert p1.pending == [BEGIN_FRAME, CUT_FRAME];
    assert [e0, Next, Finish(ans), Next, Finish(ans)][1..] == [Next, Finish(ans), Next, Finish(ans)];
    PumpedOne(p1, [Next, Finish(ans), Next, Finish(ans)], start, reader);
    var p2 := Happen(p1, Next, reader);
    assert p2.current == Some(BEGIN_FRAME) && p2.pending == [CUT_FRAME];
    assert [Next, Finish(ans), Next, Finish(ans)][1..] == [Finish(ans), Next, Finish(ans)];
    PumpedOne(p2, [Finish(ans), Next, Finish(ans)], start, reader);
    var p3 := Happen(p2, Finish(ans), reader);
    assert p3.session.transaction == Some(ans.begin.value) && p3.ending == None;
    assert [Finish(ans), Next, Finish(ans)][1..] == [Next, Finish(ans)];
    PumpedOne(p3, [Next, Finish(ans)], start, reader);
    var p4 := Happen(p3, Next, reader);
    assert [Next, Finish(ans)][1..] == [Finish(ans)] && [Finish(ans)][1..] == [];
    PumpedOne(p4, [Finish(ans)], start, reader);
    OpenMeansHeld(Happen(p4, Finish(ans), reader), start, reader);
  }

  /** The signature that older clients send for RESET is handled as RESET but does not pre-empt: a frame without
      RESET's own signature behind it is never dropped, and a processed legacy RESET leaves a clean session. */
  lemma LegacyResetDoesNotPreempt(p: Pump, start: SessionState, reader: Reader, i: nat)
    requires Good(p, start, reader) && ReadsReset(reader) && i < |p.fates|
    requires forall j | i < j < |p.received| :: !IsReset(p.received[j])
    ensures |p.fates| <= |p.received| && |p.after| == |p.fates|
    ensures p.fates[i] == Processed || p.fates[i] == Fatal
    ensures forall j | i <= j < |p.fates| && IsLegacyReset(p.received[j]) && p.fates[j] == Processed ::
      Clean(p.after[j])
  {
    hide IsReset, IsLegacyReset, Read, Clean, Well, After, AcceptAll, PhaseOf, ReadsReset;
    forall j | i <= j < |p.fates| && IsLegacyReset(p.received[j]) && p.fates[j] == Processed
      ensures Clean(p.after[j])
    {
      LegacyResetIsRead(p.received[j], reader);
    }
  }

  lemma LegacyResetIsRead(frame: Frame, reader: Reader)
    requires ReadsReset(reader) && IsLegacyReset(frame) && Read(frame, reader) != Unreadable
    ensures Read(frame, reader) == Carries(Reset)
  {
  }
}
