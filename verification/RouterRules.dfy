/** What the emission router (app/steps.py) does, as functions of its state: model events become narration, answer
    text, thinking and paired steps. Then what every run of it keeps. */
module RouterRules {
  import opened Text
  import opened Emissions

  // ----- What the router sees and does

  /** The kind of the part that follows a text part. */
  datatype NextKind = NoNext | TextNext | ThinkingNext | OtherNext

  datatype Event =
    | FinalResult
    | RunResult
    | TextFed(content: string)
    | ThinkingFed(content: string)
    | TextEnded(next: NextKind)
    | ThinkingEnded
    | ToolCall(callId: string, tool: string)
    | ToolResult(callId: string, errored: bool)
    | OtherEvent

  datatype CloseReason = Complete | Interrupt | Errored | Budget

  /** What the router puts out: chunks for the writer, and the calls of `on_final_start`. `Began` marks where an
      iteration begins. */
  datatype Output = Wrote(e: Emission) | FinalStarted | Began

  /** How raw text left the buffer; what a new iteration finds there is discarded. */
  datatype Flush = AsNarration(text: string) | AsDelta(text: string) | Discarded(text: string)

  datatype OpenStep = OpenStep(callId: string, number: nat, tool: string)

  /** What stays the same over a turn: the tools without a public step, whether reasoning is shown, and the tools
      that write. */
  datatype Config = Config(unmounted: set<string>, invisible: set<string>, emitThinking: bool, writeTools: set<string>)

  const EXCLUDED_TOOL: string := "ask_student"

  /** The state of the router. `raw` and `fed` record the text that left the buffer and all text that was fed;
      `lost` holds the numbers of the steps whose call id was taken over by a later call. */
  datatype State = State(
    textBuf: string, streamedLen: nat, thinkingBuf: string, candidate: bool, started: bool, closed: bool,
    counter: nat, open: seq<OpenStep>, out: seq<Output>, raw: seq<Flush>, fed: string, lost: set<nat>)

  const INITIAL := State("", 0, "", false, false, false, 0, [], [], [], "", {})

  // ----- Text

  function Put(s: State, e: Emission): State {
    s.(out := s.out + [Wrote(e)])
  }

  function EmitNarration(s: State, text: string): State {
    var s' := s.(raw := s.raw + [AsNarration(text)]);
    if Trim(text) == "" then s' else Put(s', Narration(Trim(text)))
  }

  function PutDelta(s: State, text: string): State {
    Put(s.(raw := s.raw + [AsDelta(text)]), Delta(text))
  }

  function Unstreamed(s: State): string {
    if s.streamedLen <= |s.textBuf| then s.textBuf[s.streamedLen..] else ""
  }

  function ClearText(s: State): State {
    s.(textBuf := "", streamedLen := 0, candidate := false)
  }

  function EmitUnstreamed(s: State): State {
    if Unstreamed(s) == "" then s else EmitNarration(s, Unstreamed(s)).(streamedLen := |s.textBuf|)
  }

  function FlushAsNarration(s: State): State {
    EmitUnstreamed(s).(textBuf := "", streamedLen := 0)
  }

  function FlushDelta(s: State): State {
    if s.textBuf == "" then s
    else if Unstreamed(s) == "" then ClearText(s)
    else PutDelta(ClearText(s), Unstreamed(s))
  }

  function StartFinal(s: State): State {
    if s.started then s else s.(started := true, candidate := false, out := s.out + [FinalStarted])
  }

  function FeedText(s: State, text: string): State {
    if text == "" then s
    else if s.started then PutDelta(s.(fed := s.fed + text), text)
    else s.(textBuf := s.textBuf + text, fed := s.fed + text)
  }

  function EndText(s: State, next: NextKind): State {
    if s.textBuf == "" || next == TextNext then s
    else if s.started || (s.candidate && (next == NoNext || next == ThinkingNext)) then
      FlushDelta(if !s.started && Unstreamed(s) != "" then StartFinal(s) else s)
    else FlushAsNarration(s).(candidate := false)
  }

  function OnFinalResult(s: State): State {
    if s.started then s
    else if s.textBuf == "" then StartFinal(s)
    else if s.streamedLen == 0 then s.(candidate := true)
    else
      var text := Unstreamed(s);
      var s' := ClearText(s);
      (if text == "" then s' else EmitNarration(s', text)).(candidate := true)
  }

  function OnRunResult(s: State): State {
    if s.started || s.textBuf == "" then s
    else if Unstreamed(s) == "" then ClearText(s)
    else FlushDelta(StartFinal(s))
  }

  // ----- Thinking

  function EmitThinking(c: Config, s: State, text: string): State {
    if Trim(text) == "" || !c.emitThinking then s else Put(s, Thinking(Trim(text)))
  }

  /** Every complete paragraph is put out. */
  function DrainThinking(c: Config, s: State): State
    decreases |s.thinkingBuf|
  {
    var i := Find(s.thinkingBuf, "\n\n");
    if i == |s.thinkingBuf| then s
    else DrainThinking(c, EmitThinking(c, s.(thinkingBuf := s.thinkingBuf[i + 2..]), s.thinkingBuf[..i]))
  }

  function FeedThinking(c: Config, s: State, text: string): State {
    if text == "" then s else DrainThinking(c, s.(thinkingBuf := s.thinkingBuf + text))
  }

  function FlushThinking(c: Config, s: State): State {
    if s.thinkingBuf == "" then s else EmitThinking(c, s, s.thinkingBuf).(thinkingBuf := "")
  }

  // ----- Steps

  function StepName(n: nat): string {
    "s" + ToDigits(n)
  }

  function PutStep(s: State, step: OpenStep, status: StepStatus): State {
    Put(s, Step(StepData(StepName(step.number), status, step.tool)))
  }

  /** The position of an open call, or `|open|` when the call is not open. */
  function IndexOf(open: seq<OpenStep>, callId: string): (i: nat)
    ensures i <= |open|
    ensures i < |open| ==> open[i].callId == callId
    ensures forall j | 0 <= j < i :: open[j].callId != callId
  {
    if open == [] then 0 else if open[0].callId == callId then 0 else 1 + IndexOf(open[1..], callId)
  }

  predicate HasStep(c: Config, tool: string) {
    tool != EXCLUDED_TOOL && tool !in c.unmounted && tool !in c.invisible
  }

  /** Enters a step into the table of open steps. */
  function Enter(s: State, step: OpenStep): State {
    var i := IndexOf(s.open, step.callId);
    var s2 := if i == |s.open| then s.(open := s.open + [step])
              else s.(open := s.open[i := step], lost := s.lost + {s.open[i].number});
    s2.(counter := s.counter + 1)
  }

  /** Takes the step at a position out of the table. */
  function Leave(s: State, i: nat): State
    requires i < |s.open|
  {
    s.(open := s.open[..i] + s.open[i + 1..])
  }

  function StartStep(c: Config, s: State, callId: string, tool: string): State {
    var s1 := (if s.textBuf != "" then FlushAsNarration(s) else s).(candidate := false);
    if !HasStep(c, tool) then s1
    else
      var step := OpenStep(callId, s1.counter + 1, tool);
      PutStep(Enter(s1, step), step, Start)
  }

  function FinishStep(s: State, callId: string, errored: bool): State {
    var i := IndexOf(s.open, callId);
    if i == |s.open| then s else PutStep(Leave(s, i), s.open[i], if errored then Error else End)
  }

  function ClosingStatus(c: Config, reason: CloseReason, tool: string): StepStatus {
    if tool in c.writeTools then Error else if reason == Complete || reason == Interrupt then End else Error
  }

  /** Ends the first `n` open steps. */
  function EndOpen(c: Config, s: State, reason: CloseReason, n: nat): State
    requires n <= |s.open|
  {
    if n == 0 then s
    else PutStep(EndOpen(c, s, reason, n - 1), s.open[n - 1], ClosingStatus(c, reason, s.open[n - 1].tool))
  }

  lemma EndOpenNone(c: Config, s: State, reason: CloseReason)
    ensures EndOpen(c, s, reason, 0) == s
  {
  }

  lemma EndOpenOne(c: Config, s: State, reason: CloseReason, i: nat)
    requires i < |s.open|
    ensures EndOpen(c, s, reason, i + 1)
         == PutStep(EndOpen(c, s, reason, i), s.open[i], ClosingStatus(c, reason, s.open[i].tool))
    ensures EndOpen(c, s, reason, i + 1).open == EndOpen(c, s, reason, i).open
  {
  }

  // ----- The three operations

  function Handle(c: Config, s: State, event: Event): State {
    if s.closed then s
    else
      match event
      case FinalResult => OnFinalResult(s)
      case RunResult => OnRunResult(s)
      case TextFed(content) => FeedText(s, content)
      case ThinkingFed(content) => FeedThinking(c, s, content)
      case TextEnded(next) => EndText(s, next)
      case ThinkingEnded => FlushThinking(c, s)
      case ToolCall(callId, tool) => StartStep(c, s, callId, tool)
      case ToolResult(callId, errored) => FinishStep(s, callId, errored)
      case OtherEvent => s
  }

  function BeginIteration(s: State): State {
    s.(closed := false, started := false, candidate := false, textBuf := "", thinkingBuf := "", streamedLen := 0,
       out := s.out + [Began], raw := if s.textBuf == "" then s.raw else s.raw + [Discarded(Unstreamed(s))])
  }

  /** The text still in the buffer when the router closes. */
  function CloseText(s: State, reason: CloseReason): State {
    if s.textBuf == "" then s
    else if s.started || (reason == Complete && s.candidate) then
      FlushDelta(if !s.started && Unstreamed(s) != "" then StartFinal(s) else s)
    else FlushAsNarration(s)
  }

  function Close(c: Config, s: State, reason: CloseReason): State {
    if s.closed then s
    else
      var s1 := CloseText(FlushThinking(c, s.(closed := true)), reason).(candidate := false);
      EndOpen(c, s1, reason, |s1.open|).(open := [])
  }

  datatype Op = Event(event: Event) | Closing(reason: CloseReason) | Beginning

  function Apply(c: Config, s: State, op: Op): State {
    match op
    case Event(event) => Handle(c, s, event)
    case Closing(reason) => Close(c, s, reason)
    case Beginning => BeginIteration(s)
  }

  function RunFrom(c: Config, s: State, ops: seq<Op>): State {
    if ops == [] then s else Apply(c, RunFrom(c, s, ops[..|ops| - 1]), ops[|ops| - 1])
  }

  // ----- No text is lost, doubled or reordered

  function RawText(raw: seq<Flush>): string {
    if raw == [] then "" else RawText(raw[..|raw| - 1]) + raw[|raw| - 1].text
  }

  /** All text fed is what was flushed, in order, followed by the buffer. */
  predicate Conserves(s: State) {
    RawText(s.raw) + Unstreamed(s) == s.fed
  }

  /** How flushed text shows: narration trimmed, and only when something is left; answer text as it is; discarded text
      not at all. */
  function Shown(raw: seq<Flush>): seq<Emission> {
    if raw == [] then []
    else
      Shown(raw[..|raw| - 1]) + match raw[|raw| - 1]
                                case AsNarration(text) => if Trim(text) == "" then [] else [Narration(Trim(text))]
                                case AsDelta(text) => [Delta(text)]
                                case Discarded(_) => []
  }

  /** The pieces of text that were discarded. */
  function Discards(raw: seq<Flush>): seq<string> {
    if raw == [] then []
    else Discards(raw[..|raw| - 1]) + if raw[|raw| - 1].Discarded? then [raw[|raw| - 1].text] else []
  }

  /** The narration and the answer text among the outputs. */
  function TextOut(out: seq<Output>): seq<Emission> {
    if out == [] then []
    else
      var last := out[|out| - 1];
      TextOut(out[..|out| - 1]) + if last.Wrote? && (last.e.Narration? || last.e.Delta?) then [last.e] else []
  }

  /** Where an iteration stands: before its final answer, in it, or out of order. */
  datatype Phase = BeforeFinal | InFinal | OutOfOrder

  function Advance(p: Phase, o: Output): Phase {
    match o
    case Began => if p == OutOfOrder then OutOfOrder else BeforeFinal
    case FinalStarted => if p == BeforeFinal then InFinal else OutOfOrder
    case Wrote(e) =>
      if (e.Delta? && p != InFinal) || (e.Narration? && p != BeforeFinal) then OutOfOrder else p
  }

  function PhaseOf(out: seq<Output>): Phase {
    if out == [] then BeforeFinal else Advance(PhaseOf(out[..|out| - 1]), out[|out| - 1])
  }

  /** What holds between any two operations. */
  predicate TextInv(s: State) {
    && Conserves(s)
    && s.streamedLen == 0
    && (s.started || s.closed ==> s.textBuf == "")
    && TextOut(s.out) == Shown(s.raw)
    && PhaseOf(s.out) == if s.started then InFinal else BeforeFinal
  }

  // How the histories grow by one.

  lemma OutGrows(out: seq<Output>, o: Output)
    ensures TextOut(out + [o]) == TextOut(out) + if o.Wrote? && (o.e.Narration? || o.e.Delta?) then [o.e] else []
    ensures PhaseOf(out + [o]) == Advance(PhaseOf(out), o)
  {
    assert (out + [o])[..|out|] == out;
  }

  lemma RawGrows(raw: seq<Flush>, f: Flush)
    ensures RawText(raw + [f]) == RawText(raw) + f.text
    ensures Shown(raw + [f]) == Shown(raw) + match f
                                             case AsNarration(text) => if Trim(text) == "" then [] else [Narration(Trim(text))]
                                             case AsDelta(text) => [Delta(text)]
                                             case Discarded(_) => []
    ensures Discards(raw + [f]) == Discards(raw) + if f.Discarded? then [f.text] else []
  {
    assert (raw + [f])[..|raw|] == raw;
  }

  /** Putting out anything but narration, answer text and step changes no text. */
  lemma PutKeepsText(s: State, e: Emission)
    requires TextInv(s) && !e.Narration? && !e.Delta?
    ensures TextInv(Put(s, e))
  {
    OutGrows(s.out, Wrote(e));
    assert TextOut(s.out) + [] == TextOut(s.out);
  }

  lemma StartFinalKeepsPhase(s: State)
    requires PhaseOf(s.out) == if s.started then InFinal else BeforeFinal
    requires TextOut(s.out) == Shown(s.raw)
    ensures var s' := StartFinal(s); PhaseOf(s'.out) == InFinal && TextOut(s'.out) == Shown(s'.raw) && s'.started
  {
    OutGrows(s.out, FinalStarted);
  }

  /** The buffer leaves as answer text once the final answer has started. */
  lemma FlushDeltaKeepsText(s: State)
    requires Conserves(s) && s.streamedLen == 0 && s.textBuf != "" && s.started
    requires TextOut(s.out) == Shown(s.raw) && PhaseOf(s.out) == InFinal
    ensures TextInv(FlushDelta(s))
  {
    assert Unstreamed(s) == s.textBuf;
    RawGrows(s.raw, AsDelta(s.textBuf));
    OutGrows(s.out, Wrote(Delta(s.textBuf)));
  }

  /** Before the final answer the buffer leaves as narration. */
  lemma {:induction false} NarrationKeepsText(s: State)
    requires Conserves(s) && s.streamedLen == 0 && !s.started
    requires TextOut(s.out) == Shown(s.raw) && PhaseOf(s.out) == BeforeFinal
    ensures TextInv(FlushAsNarration(s))
  {
    hide Trim, TextOut, PhaseOf, RawText, Shown;
    assert Unstreamed(s) == s.textBuf;
    if s.textBuf != "" {
      RawGrows(s.raw, AsNarration(s.textBuf));
      OutGrows(s.out, Wrote(Narration(Trim(s.textBuf))));
    }
  }

  lemma FeedTextKeepsText(s: State, text: string)
    requires TextInv(s) && !s.closed
    ensures TextInv(FeedText(s, text))
  {
    hide TextOut, PhaseOf, RawText, Shown;
    RawGrows(s.raw, AsDelta(text));
    OutGrows(s.out, Wrote(Delta(text)));
    if s.started {
      assert RawText(s.raw) + text + "" == RawText(s.raw) + "" + text;
    } else {
      assert RawText(s.raw) + (s.textBuf + text) == RawText(s.raw) + s.textBuf + text;
      assert s.textBuf[0..] == s.textBuf && (s.textBuf + text)[0..] == s.textBuf + text;
    }
  }

  lemma {:induction false} DrainThinkingKeepsText(c: Config, s: State)
    requires TextInv(s)
    ensures TextInv(DrainThinking(c, s))
    decreases |s.thinkingBuf|
  {
    hide TextInv, Find, Trim;
    var i := Find(s.thinkingBuf, "\n\n");
    if i < |s.thinkingBuf| {
      var s1 := s.(thinkingBuf := s.thinkingBuf[i + 2..]);
      SameText(s, s1);
      PutKeepsText(s1, Thinking(Trim(s.thinkingBuf[..i])));
      DrainThinkingKeepsText(c, EmitThinking(c, s1, s.thinkingBuf[..i]));
    }
  }

  lemma {:induction false} FinalResultKeepsText(s: State)
    requires TextInv(s) && !s.closed
    ensures TextInv(OnFinalResult(s))
  {
    hide Trim, TextOut, PhaseOf, RawText, Shown;
    assert s.textBuf[0..] == s.textBuf;
    StartFinalKeepsPhase(s);
  }

  lemma {:induction false} RunResultKeepsText(s: State)
    requires TextInv(s) && !s.closed
    ensures TextInv(OnRunResult(s))
  {
    hide Trim, TextOut, PhaseOf, RawText, Shown, FlushDelta;
    assert s.textBuf[0..] == s.textBuf;
    StartFinalKeepsPhase(s);
    if !s.started && s.textBuf != "" {
      FlushDeltaKeepsText(StartFinal(s));
    }
  }

  lemma {:induction false} EndTextKeepsText(s: State, next: NextKind)
    requires TextInv(s) && !s.closed
    ensures TextInv(EndText(s, next))
  {
    hide Trim, TextOut, PhaseOf, RawText, Shown, FlushDelta, FlushAsNarration;
    assert s.textBuf[0..] == s.textBuf;
    StartFinalKeepsPhase(s);
    if s.textBuf != "" {
      FlushDeltaKeepsText(StartFinal(s));
      NarrationKeepsText(s);
    }
  }

  lemma {:induction false} StartStepKeepsText(c: Config, s: State, callId: string, tool: string)
    requires TextInv(s) && !s.closed
    ensures TextInv(StartStep(c, s, callId, tool))
  {
    hide TextInv, FlushAsNarration, IndexOf;
    if s.textBuf != "" {
      NarrationFirst(s);
    }
    var s1 := if s.textBuf != "" then FlushAsNarration(s) else s;
    SameText(s1, s1.(candidate := false));
    var step := OpenStep(callId, s1.counter + 1, tool);
    var s2 := Enter(s1.(candidate := false), step);
    SameText(s1, s2);
    PutKeepsText(s2, Step(StepData(StepName(s1.counter + 1), Start, tool)));
  }

  lemma NarrationFirst(s: State)
    requires TextInv(s) && s.textBuf != ""
    ensures TextInv(FlushAsNarration(s))
  {
    hide Trim, TextOut, PhaseOf, RawText, Shown, FlushAsNarration;
    NarrationKeepsText(s);
  }

  /** The invariant looks at the text, what was put out, and the latches, and at nothing else. */
  lemma SameText(s: State, t: State)
    requires TextInv(s) && t.textBuf == s.textBuf && t.streamedLen == s.streamedLen && t.started == s.started
    requires t.closed == s.closed && t.out == s.out && t.raw == s.raw && t.fed == s.fed
    ensures TextInv(t)
  {
    hide TextOut, PhaseOf, RawText, Shown;
  }

  lemma {:induction false} FinishStepKeepsText(s: State, callId: string, errored: bool)
    requires TextInv(s)
    ensures TextInv(FinishStep(s, callId, errored))
  {
    hide Trim, TextOut, PhaseOf, RawText, Shown, IndexOf;
    var i := IndexOf(s.open, callId);
    if i < |s.open| {
      PutKeepsText(s, Step(StepData(StepName(s.open[i].number), if errored then Error else End, s.open[i].tool)));
    }
  }

  lemma {:induction false} FlushThinkingKeepsText(c: Config, s: State)
    requires TextInv(s)
    ensures TextInv(FlushThinking(c, s))
  {
    hide Trim, TextOut, PhaseOf, RawText, Shown;
    PutKeepsText(s, Thinking(Trim(s.thinkingBuf)));
  }

  lemma {:induction false} FeedThinkingKeepsText(c: Config, s: State, text: string)
    requires TextInv(s)
    ensures TextInv(FeedThinking(c, s, text))
  {
    hide Trim, TextOut, PhaseOf, RawText, Shown, DrainThinking;
    DrainThinkingKeepsText(c, s.(thinkingBuf := s.thinkingBuf + text));
  }

  lemma {:induction false} HandleKeepsText(c: Config, s: State, event: Event)
    requires TextInv(s)
    ensures TextInv(Handle(c, s, event))
  {
    hide TextInv, OnFinalResult, OnRunResult, FeedText, FeedThinking, EndText, FlushThinking, StartStep, FinishStep;
    if !s.closed {
      match event
      case FinalResult => FinalResultKeepsText(s);
      case RunResult => RunResultKeepsText(s);
      case TextFed(content) => FeedTextKeepsText(s, content);
      case ThinkingFed(content) => FeedThinkingKeepsText(c, s, content);
      case TextEnded(next) => EndTextKeepsText(s, next);
      case ThinkingEnded => FlushThinkingKeepsText(c, s);
      case ToolCall(callId, tool) => StartStepKeepsText(c, s, callId, tool);
      case ToolResult(callId, errored) => FinishStepKeepsText(s, callId, errored);
      case OtherEvent =>
    }
  }

  lemma {:induction false} EndOpenKeepsText(c: Config, s: State, reason: CloseReason, n: nat)
    requires TextInv(s) && n <= |s.open|
    ensures TextInv(EndOpen(c, s, reason, n)) && EndOpen(c, s, reason, n).open == s.open
  {
    hide TextInv;
    if n > 0 {
      EndOpenKeepsText(c, s, reason, n - 1);
      var step := s.open[n - 1];
      PutKeepsText(EndOpen(c, s, reason, n - 1),
                   Step(StepData(StepName(step.number), ClosingStatus(c, reason, step.tool), step.tool)));
    }
  }

  lemma CloseTextKeepsText(s: State, reason: CloseReason)
    requires TextInv(s.(closed := false))
    ensures TextInv(CloseText(s, reason)) && CloseText(s, reason).textBuf == ""
    ensures CloseText(s, reason).closed == s.closed
  {
    hide Trim, TextOut, PhaseOf, RawText, Shown;
    assert s.textBuf[0..] == s.textBuf;
    if s.textBuf != "" {
      StartFinalKeepsPhase(s);
      FlushDeltaKeepsText(StartFinal(s));
      NarrationKeepsText(s);
    }
  }

  /** Closing leaves nothing in the buffer. */
  lemma CloseKeepsText(c: Config, s: State, reason: CloseReason)
    requires TextInv(s)
    ensures TextInv(Close(c, s, reason)) && Close(c, s, reason).textBuf == "" && Close(c, s, reason).closed
  {
    hide Trim, TextOut, PhaseOf, RawText, Shown, EndOpen, CloseText;
    if !s.closed {
      PutKeepsText(s, Thinking(Trim(s.thinkingBuf)));
      var s1 := FlushThinking(c, s.(closed := true));
      CloseTextKeepsText(s1, reason);
      var s2 := CloseText(s1, reason).(candidate := false);
      EndOpenKeepsText(c, s2, reason, |s2.open|);
      EndOpenKeepsRest(c, s2, reason, |s2.open|);
    }
  }

  lemma {:induction false} EndOpenKeepsRest(c: Config, s: State, reason: CloseReason, n: nat)
    requires n <= |s.open|
    ensures var s' := EndOpen(c, s, reason, n);
            s' == s.(out := s'.out)
  {
    if n > 0 {
      EndOpenKeepsRest(c, s, reason, n - 1);
    }
  }

  /** A new iteration finds the text that waits in the buffer, and discards exactly that. */
  lemma BeginDiscards(s: State)
    requires TextInv(s)
    ensures TextInv(BeginIteration(s))
    ensures Discards(BeginIteration(s).raw) == Discards(s.raw) + if s.textBuf == "" then [] else [s.textBuf]
  {
    OutGrows(s.out, Began);
    RawGrows(s.raw, Discarded(s.textBuf));
    hide TextOut, PhaseOf, RawText, Shown;
    assert s.textBuf[0..] == s.textBuf;
    assert TextOut(s.out) + [] == TextOut(s.out);
    assert RawText(s.raw) + s.textBuf + "" == RawText(s.raw) + s.textBuf;
  }

  /** For every sequence of events, closes and iterations, no text of narration or answer is doubled or reordered, and
      none is lost but what an iteration discards when it begins; in every iteration all narration comes before the final answer starts, which
      it does at most once and before its first text; and the buffer is empty after a close. */
  lemma {:induction false} RunKeepsText(c: Config, ops: seq<Op>)
    ensures TextInv(RunFrom(c, INITIAL, ops))
  {
    hide TextInv, Handle, Close, BeginIteration;
    if ops == [] {
      InitialText();
    } else {
      var init, last := ops[..|ops| - 1], ops[|ops| - 1];
      RunKeepsText(c, init);
      var s := RunFrom(c, INITIAL, init);
      match last
      case Event(event) => HandleKeepsText(c, s, event);
      case Closing(reason) => CloseKeepsText(c, s, reason);
      case Beginning => BeginDiscards(s);
    }
  }

  // What is discarded.

  lemma {:induction false} FlushesDiscardNothing(s: State)
    ensures Discards(FlushAsNarration(s).raw) == Discards(s.raw)
    ensures Discards(FlushDelta(s).raw) == Discards(s.raw)
    ensures Discards(StartFinal(s).raw) == Discards(s.raw)
    ensures Discards(OnFinalResult(s).raw) == Discards(s.raw)
  {
    RawGrows(s.raw, AsNarration(Unstreamed(s)));
    RawGrows(s.raw, AsDelta(Unstreamed(s)));
    hide Trim, Discards;
    assert Discards(s.raw) + [] == Discards(s.raw);
  }

  lemma {:induction false} DrainThinkingDiscardsNothing(c: Config, s: State)
    ensures DrainThinking(c, s).raw == s.raw
    decreases |s.thinkingBuf|
  {
    hide Trim, Find;
    var i := Find(s.thinkingBuf, "\n\n");
    if i < |s.thinkingBuf| {
      DrainThinkingDiscardsNothing(c, EmitThinking(c, s.(thinkingBuf := s.thinkingBuf[i + 2..]), s.thinkingBuf[..i]));
    }
  }

  lemma {:induction false} EventsDiscardNothing(c: Config, s: State, text: string, next: NextKind, callId: string,
                                                errored: bool)
    ensures Discards(OnRunResult(s).raw) == Discards(s.raw) && Discards(FeedText(s, text).raw) == Discards(s.raw)
    ensures Discards(EndText(s, next).raw) == Discards(s.raw) && FlushThinking(c, s).raw == s.raw
    ensures FinishStep(s, callId, errored).raw == s.raw && FeedThinking(c, s, text).raw == s.raw
  {
    FlushesDiscardNothing(s);
    FlushesDiscardNothing(StartFinal(s));
    DrainThinkingDiscardsNothing(c, s.(thinkingBuf := s.thinkingBuf + text));
    RawGrows(s.raw, AsDelta(text));
    hide Trim, DrainThinking, FlushAsNarration, FlushDelta, StartFinal, IndexOf, Discards;
    assert Discards(s.raw) + [] == Discards(s.raw);
  }

  lemma {:induction false} StartStepDiscardsNothing(c: Config, s: State, callId: string, tool: string)
    ensures Discards(StartStep(c, s, callId, tool).raw) == Discards(s.raw)
  {
    FlushesDiscardNothing(s);
    hide FlushAsNarration, IndexOf, HasStep, Discards;
  }

  lemma {:induction false} HandleDiscardsNothing(c: Config, s: State, event: Event)
    ensures Discards(Handle(c, s, event).raw) == Discards(s.raw)
  {
    FlushesDiscardNothing(s);
    hide OnFinalResult, OnRunResult, FeedText, FeedThinking, EndText, FlushThinking, StartStep, FinishStep, Discards;
    match event
    case TextFed(content) => EventsDiscardNothing(c, s, content, NoNext, "", false);
    case ThinkingFed(content) => EventsDiscardNothing(c, s, content, NoNext, "", false);
    case TextEnded(next) => EventsDiscardNothing(c, s, "", next, "", false);
    case ToolCall(callId, tool) => StartStepDiscardsNothing(c, s, callId, tool);
    case ToolResult(callId, errored) => EventsDiscardNothing(c, s, "", NoNext, callId, errored);
    case RunResult => EventsDiscardNothing(c, s, "", NoNext, "", false);
    case ThinkingEnded => EventsDiscardNothing(c, s, "", NoNext, "", false);
    case FinalResult =>
    case OtherEvent =>
  }

  lemma {:induction false} CloseDiscardsNothing(c: Config, s: State, reason: CloseReason)
    ensures Discards(Close(c, s, reason).raw) == Discards(s.raw)
  {
    hide Trim, EndOpen, FlushAsNarration, FlushDelta, StartFinal, Discards;
    if !s.closed {
      var s0 := FlushThinking(c, s.(closed := true));
      FlushesDiscardNothing(s0);
      FlushesDiscardNothing(StartFinal(s0));
      var s1 := CloseText(s0, reason).(candidate := false);
      EndOpenKeepsRest(c, s1, reason, |s1.open|);
    }
  }

  /** Every iteration is begun with nothing waiting in the buffer. */
  predicate BeginsEmpty(c: Config, ops: seq<Op>) {
    forall i | 0 <= i < |ops| && ops[i] == Beginning :: RunFrom(c, INITIAL, ops[..i]).textBuf == ""
  }

  lemma BeginsEmptyStep(c: Config, ops: seq<Op>)
    requires ops != []
    ensures BeginsEmpty(c, ops) <==>
              BeginsEmpty(c, ops[..|ops| - 1])
              && (ops[|ops| - 1] == Beginning ==> RunFrom(c, INITIAL, ops[..|ops| - 1]).textBuf == "")
  {
    hide RunFrom;
    var init := ops[..|ops| - 1];
    assert forall i | 0 <= i < |init| :: init[..i] == ops[..i] && init[i] == ops[i];
  }

  /** A run discards no text exactly when each of its iterations begins with an empty buffer. */
  lemma {:induction false} RunDiscardsNothingIff(c: Config, ops: seq<Op>)
    ensures Discards(RunFrom(c, INITIAL, ops).raw) == [] <==> BeginsEmpty(c, ops)
  {
    hide Discards, Handle, Close, BeginIteration, TextInv;
    if ops == [] {
      NothingDiscarded();
    } else {
      var init, last := ops[..|ops| - 1], ops[|ops| - 1];
      var s := RunFrom(c, INITIAL, init);
      RunDiscardsNothingIff(c, init);
      BeginsEmptyStep(c, ops);
      match last
      case Event(event) => HandleDiscardsNothing(c, s, event);
      case Closing(reason) => CloseDiscardsNothing(c, s, reason);
      case Beginning =>
        RunKeepsText(c, init);
        BeginDiscards(s);
        assert |Discards(BeginIteration(s).raw)| == |Discards(s.raw)| + if s.textBuf == "" then 0 else 1;
    }
  }

  lemma NothingDiscarded()
    ensures Discards(INITIAL.raw) == []
  {
  }

  /** Every iteration comes first of all or directly after a close. */
  predicate BeginsAfterClose(ops: seq<Op>) {
    forall i | 0 < i < |ops| && ops[i] == Beginning :: ops[i - 1].Closing?
  }

  /** When every iteration comes first of all or directly after a close, no text is lost, and no thinking waits when
      an iteration empties its buffer. */
  lemma {:induction false} ClosingSavesText(c: Config, ops: seq<Op>)
    requires BeginsAfterClose(ops)
    ensures Discards(RunFrom(c, INITIAL, ops).raw) == []
    ensures TextInv(RunFrom(c, INITIAL, ops))
    ensures forall i | 0 <= i < |ops| && ops[i] == Beginning :: RunFrom(c, INITIAL, ops[..i]).thinkingBuf == ""
  {
    hide Discards, TextInv, Close, Handle, BeginIteration;
    RunKeepsText(c, ops);
    RunDiscardsNothingIff(c, ops);
    forall i | 0 <= i < |ops| && ops[i] == Beginning
      ensures RunFrom(c, INITIAL, ops[..i]).textBuf == ""
      ensures RunFrom(c, INITIAL, ops[..i]).thinkingBuf == ""
    {
      ClosedThinksNothing(c, ops[..i]);
      if i > 0 {
        assert ops[..i][..i - 1] == ops[..i - 1];
        RunKeepsText(c, ops[..i - 1]);
        CloseKeepsText(c, RunFrom(c, INITIAL, ops[..i - 1]), ops[i - 1].reason);
      }
    }
  }

  lemma RunOne(c: Config, op: Op)
    ensures RunFrom(c, INITIAL, [op]) == Apply(c, INITIAL, op)
  {
    hide Apply;
    assert [op][..0] == [];
    assert RunFrom(c, INITIAL, []) == INITIAL;
  }

  lemma RunMore(c: Config, ops: seq<Op>, op: Op)
    ensures RunFrom(c, INITIAL, ops + [op]) == Apply(c, RunFrom(c, INITIAL, ops), op)
  {
    hide Apply;
    assert (ops + [op])[..|ops|] == ops;
  }

  /** A run that loses text: the iteration that produced it was not closed. */
  lemma {:induction false} UnclosedTextIsLost(c: Config, text: string)
    requires text != ""
    ensures var s := RunFrom(c, INITIAL, [Event(TextFed(text)), Beginning]);
            Discards(s.raw) == [text] && s.fed == text && Shown(s.raw) == []
  {
    var fed := Event(TextFed(text));
    RunOne(c, fed);
    RunMore(c, [fed], Beginning);
    assert [fed] + [Beginning] == [fed, Beginning];
    assert "" + text == text && text[0..] == text;
    RawGrows([], Discarded(text));
    assert [] + [Discarded(text)] == [Discarded(text)];
    assert Discards([]) == [] && Shown([]) == [];
  }

  // Thinking.

  lemma {:induction false} CloseFlushesThinking(c: Config, s: State, reason: CloseReason)
    ensures !s.closed ==> Close(c, s, reason).thinkingBuf == ""
  {
    hide Trim, EndOpen, Discards;
    if !s.closed {
      var s0 := FlushThinking(c, s.(closed := true));
      var s1 := CloseText(s0, reason).(candidate := false);
      EndOpenKeepsRest(c, s1, reason, |s1.open|);
    }
  }

  /** A closed router has no thinking waiting. */
  lemma {:induction false} ClosedThinksNothing(c: Config, ops: seq<Op>)
    ensures var s := RunFrom(c, INITIAL, ops); s.closed ==> s.thinkingBuf == ""
  {
    hide Handle, Close;
    if ops != [] {
      var init, last := ops[..|ops| - 1], ops[|ops| - 1];
      ClosedThinksNothing(c, init);
      var s := RunFrom(c, INITIAL, init);
      match last
      case Event(event) => HandleKeepsClosed(c, s, event);
      case Closing(reason) =>
        CloseFlushesThinking(c, s, reason);
        ClosedClose(c, s, reason);
      case Beginning =>
    }
  }

  lemma InitialText()
    ensures TextInv(INITIAL)
  {
  }

  /** The final answer has started before position `j`, and no iteration has begun since. */
  predicate FinalSince(out: seq<Output>, j: nat)
    requires j <= |out|
  {
    exists i :: 0 <= i < j && out[i] == FinalStarted && forall k | i < k < j :: out[k] != Began
  }

  lemma {:induction false} PhaseIsFinalSince(out: seq<Output>, j: nat)
    requires j <= |out| && PhaseOf(out[..j]) != OutOfOrder
    ensures PhaseOf(out[..j]) == InFinal <==> FinalSince(out, j)
  {
    if j > 0 {
      assert out[..j][..j - 1] == out[..j - 1];
      PhaseIsFinalSince(out, j - 1);
      if FinalSince(out, j - 1) && out[j - 1] != Began {
        var i :| 0 <= i < j - 1 && out[i] == FinalStarted && forall k | i < k < j - 1 :: out[k] != Began;
        assert forall k | i < k < j :: out[k] != Began;
        assert FinalSince(out, j);
      }
      if out[j - 1] == FinalStarted {
        assert FinalSince(out, j);
      }
      if FinalSince(out, j) && out[j - 1] != FinalStarted {
        var i :| 0 <= i < j && out[i] == FinalStarted && forall k | i < k < j :: out[k] != Began;
        assert out[j - 1] != Began;
        assert FinalSince(out, j - 1);
      }
    }
  }

  lemma {:induction false} PrefixInOrder(out: seq<Output>, j: nat)
    requires j <= |out| && PhaseOf(out) != OutOfOrder
    ensures PhaseOf(out[..j]) != OutOfOrder
  {
    if j == |out| {
      assert out[..j] == out;
    } else {
      assert out[..|out| - 1][..j] == out[..j];
      PrefixInOrder(out[..|out| - 1], j);
    }
  }

  /** What being in order means: in every iteration the final answer starts at most once, narration comes only
      before that, and answer text only after it. */
  lemma InOrderMeans(out: seq<Output>, j: nat)
    requires j < |out| && PhaseOf(out) != OutOfOrder
    ensures IsDelta(out[j]) ==> FinalSince(out, j)
    ensures IsNarration(out[j]) || out[j] == FinalStarted ==> !FinalSince(out, j)
  {
    PrefixInOrder(out, j);
    PrefixInOrder(out, j + 1);
    assert out[..j + 1][..j] == out[..j];
    PhaseIsFinalSince(out, j);
  }

  predicate IsDelta(o: Output) {
    o.Wrote? && o.e.Delta?
  }

  predicate IsNarration(o: Output) {
    o.Wrote? && o.e.Narration?
  }

  // ----- Every step that starts ends once

  /** The numbers of the steps that an output starts or ends. */
  predicate Starts(o: Output, n: nat) {
    o.Wrote? && o.e.Step? && o.e.data.stepId == StepName(n) && o.e.data.status == Start
  }

  predicate Ends(o: Output, n: nat) {
    o.Wrote? && o.e.Step? && o.e.data.stepId == StepName(n) && o.e.data.status != Start
  }

  lemma StepNamesDiffer(m: nat, n: nat)
    requires StepName(m) == StepName(n)
    ensures m == n
  {
    assert StepName(m)[1..] == ToDigits(m) && StepName(n)[1..] == ToDigits(n);
  }

  /** How often a step is started or ended. */
  function CountStarts(out: seq<Output>, n: nat): nat {
    if out == [] then 0 else CountStarts(out[..|out| - 1], n) + if Starts(out[|out| - 1], n) then 1 else 0
  }

  function CountEnds(out: seq<Output>, n: nat): nat {
    if out == [] then 0 else CountEnds(out[..|out| - 1], n) + if Ends(out[|out| - 1], n) then 1 else 0
  }

  predicate IsOpen(s: State, n: nat) {
    exists i :: 0 <= i < |s.open| && s.open[i].number == n
  }

  /** The open steps have different numbers and call ids, and none of them is lost. */
  predicate OpenInv(s: State) {
    && (forall i, j | 0 <= i < j < |s.open| :: s.open[i].number != s.open[j].number)
    && (forall i, j | 0 <= i < j < |s.open| :: s.open[i].callId != s.open[j].callId)
    && (forall i | 0 <= i < |s.open| :: 1 <= s.open[i].number <= s.counter && s.open[i].number !in s.lost)
    && (forall n | n in s.lost :: 1 <= n <= s.counter)
  }

  /** A step that is neither open nor lost has come to its end. */
  predicate IsDone(s: State, n: nat) {
    1 <= n <= s.counter && !IsOpen(s, n) && n !in s.lost
  }

  /** What `o` ends was started before. */
  ghost predicate EndsStarted(out: seq<Output>, o: Output) {
    forall n: nat | Ends(o, n) :: CountStarts(out, n) > 0
  }

  /** Whatever ends was started before. */
  ghost predicate EndsFollow(out: seq<Output>) {
    out == [] || (EndsFollow(out[..|out| - 1]) && EndsStarted(out[..|out| - 1], out[|out| - 1]))
  }

  /** Every step of the counter was started once, and every one of them that is done was ended once; no other step
      was started or ended. */
  ghost predicate StepInv(s: State) {
    && OpenInv(s)
    && EndsFollow(s.out)
    && (forall n: nat :: CountStarts(s.out, n) == if 1 <= n <= s.counter then 1 else 0)
    && (forall n: nat :: CountEnds(s.out, n) == if IsDone(s, n) then 1 else 0)
  }

  lemma CountsGrow(out: seq<Output>, o: Output)
    ensures forall n: nat :: CountStarts(out + [o], n) == CountStarts(out, n) + if Starts(o, n) then 1 else 0
    ensures forall n: nat :: CountEnds(out + [o], n) == CountEnds(out, n) + if Ends(o, n) then 1 else 0
    ensures EndsFollow(out + [o]) <==> EndsFollow(out) && EndsStarted(out, o)
  {
    assert (out + [o])[..|out|] == out;
  }

  /** The part of the state that the steps depend on. */
  predicate SameSteps(s: State, t: State) {
    s.open == t.open && s.counter == t.counter && s.lost == t.lost
  }

  /** Outputs that are no steps change nothing about the steps. */
  lemma NoStepKeepsSteps(s: State, t: State, o: Output)
    requires StepInv(s) && SameSteps(s, t) && t.out == s.out + [o] && !(o.Wrote? && o.e.Step?)
    ensures StepInv(t)
  {
    CountsGrow(s.out, o);
    assert forall n: nat :: IsOpen(t, n) <==> IsOpen(s, n);
  }

  lemma SameKeepsSteps(s: State, t: State)
    requires StepInv(s) && SameSteps(s, t) && t.out == s.out
    ensures StepInv(t)
  {
    assert forall n: nat :: IsOpen(t, n) <==> IsOpen(s, n);
  }

  lemma FlushAsNarrationKeepsSteps(s: State)
    requires StepInv(s)
    ensures StepInv(FlushAsNarration(s)) && SameSteps(s, FlushAsNarration(s))
  {
    hide StepInv, Trim;
    var s' := FlushAsNarration(s);
    if s'.out == s.out {
      SameKeepsSteps(s, s');
    } else {
      NoStepKeepsSteps(s, s', Wrote(Narration(Trim(Unstreamed(s)))));
    }
  }

  lemma FlushDeltaKeepsSteps(s: State)
    requires StepInv(s)
    ensures StepInv(FlushDelta(s)) && SameSteps(s, FlushDelta(s))
  {
    hide StepInv;
    var s' := FlushDelta(s);
    if s'.out == s.out {
      SameKeepsSteps(s, s');
    } else {
      NoStepKeepsSteps(s, s', Wrote(Delta(Unstreamed(s))));
    }
  }

  lemma StartFinalKeepsSteps(s: State)
    requires StepInv(s)
    ensures StepInv(StartFinal(s)) && SameSteps(s, StartFinal(s))
  {
    hide StepInv;
    if !s.started {
      NoStepKeepsSteps(s, StartFinal(s), FinalStarted);
    }
  }

  lemma EmitThinkingKeepsSteps(c: Config, s: State, text: string)
    requires StepInv(s)
    ensures StepInv(EmitThinking(c, s, text)) && SameSteps(s, EmitThinking(c, s, text))
  {
    hide StepInv, Trim;
    if Trim(text) != "" && c.emitThinking {
      NoStepKeepsSteps(s, EmitThinking(c, s, text), Wrote(Thinking(Trim(text))));
    }
  }

  lemma {:induction false} DrainThinkingKeepsSteps(c: Config, s: State)
    requires StepInv(s)
    ensures StepInv(DrainThinking(c, s)) && SameSteps(s, DrainThinking(c, s))
    decreases |s.thinkingBuf|
  {
    hide StepInv, Find;
    var i := Find(s.thinkingBuf, "\n\n");
    if i < |s.thinkingBuf| {
      var s1 := s.(thinkingBuf := s.thinkingBuf[i + 2..]);
      SameKeepsSteps(s, s1);
      EmitThinkingKeepsSteps(c, s1, s.thinkingBuf[..i]);
      DrainThinkingKeepsSteps(c, EmitThinking(c, s1, s.thinkingBuf[..i]));
    }
  }

  lemma {:induction false} EnterKeepsOpen(s: State, step: OpenStep)
    requires OpenInv(s) && step.number == s.counter + 1
    ensures OpenInv(Enter(s, step))
  {
    hide IndexOf;
    var i := IndexOf(s.open, step.callId);
    var t := Enter(s, step);
    forall j | 0 <= j < |t.open|
      ensures t.open[j] == if j == i then step else s.open[j]
      ensures 1 <= t.open[j].number <= t.counter && t.open[j].number !in t.lost
    {
      assert i < |s.open| && j != i ==> s.open[j].number != s.open[i].number;
    }
    forall j, k | 0 <= j < k < |t.open|
      ensures t.open[j].number != t.open[k].number && t.open[j].callId != t.open[k].callId
    {
      assert i < |s.open| && j != i ==> s.open[j].callId != s.open[i].callId;
      assert i < |s.open| && k != i ==> s.open[k].callId != s.open[i].callId;
    }
  }

  lemma EnterKeepsDone(s: State, step: OpenStep)
    requires OpenInv(s) && step.number == s.counter + 1
    ensures forall n: nat :: IsDone(Enter(s, step), n) <==> IsDone(s, n)
  {
    EnterOpens(s, step);
    var i := IndexOf(s.open, step.callId);
    var t := Enter(s, step);
    assert t.lost == if i == |s.open| then s.lost else s.lost + {s.open[i].number};
    assert i < |s.open| ==> IsOpen(s, s.open[i].number);
    assert forall n: nat | IsOpen(s, n) :: n <= s.counter;
    hide IsOpen, IndexOf, Enter, OpenInv;
  }

  lemma EnterOpens(s: State, step: OpenStep)
    requires OpenInv(s)
    ensures var i := IndexOf(s.open, step.callId);
            forall n: nat :: IsOpen(Enter(s, step), n) <==>
                             n == step.number || (IsOpen(s, n) && !(i < |s.open| && s.open[i].number == n))
  {
    var i := IndexOf(s.open, step.callId);
    var t := Enter(s, step);
    assert t.open[i] == step;
    forall n: nat
      ensures IsOpen(t, n) <==> n == step.number || (IsOpen(s, n) && !(i < |s.open| && s.open[i].number == n))
    {
      if IsOpen(s, n) && !(i < |s.open| && s.open[i].number == n) {
        var j :| 0 <= j < |s.open| && s.open[j].number == n;
        assert j != i && t.open[j] == s.open[j];
      }
      if IsOpen(t, n) && n != step.number {
        var j :| 0 <= j < |t.open| && t.open[j].number == n;
        assert j != i && s.open[j] == t.open[j];
      }
    }
  }

  lemma StartsOnly(step: OpenStep)
    ensures var o := Wrote(Step(StepData(StepName(step.number), Start, step.tool)));
            forall n: nat :: (Starts(o, n) <==> n == step.number) && !Ends(o, n)
  {
    hide StepName;
    var o := Wrote(Step(StepData(StepName(step.number), Start, step.tool)));
    forall n: nat
      ensures Starts(o, n) <==> n == step.number
    {
      if Starts(o, n) {
        StepNamesDiffer(n, step.number);
      }
    }
  }

  /** A new step: its number is new, and a step whose call id it takes over is lost. */
  lemma NewStepKeepsSteps(s: State, step: OpenStep)
    requires StepInv(s) && step.number == s.counter + 1
    ensures StepInv(PutStep(Enter(s, step), step, Start))
  {
    var t := PutStep(Enter(s, step), step, Start);
    var o := Wrote(Step(StepData(StepName(step.number), Start, step.tool)));
    EnterKeepsOpen(s, step);
    EnterKeepsDone(s, step);
    CountsGrow(s.out, o);
    assert t.out == s.out + [o] && t.counter == s.counter + 1;
    StartsOnly(step);
    hide OpenInv, IsDone, Enter, CountStarts, CountEnds, EndsFollow, Starts, Ends;
    assert OpenInv(t) && forall n: nat :: IsDone(t, n) <==> IsDone(s, n) by {
      SameOpen(Enter(s, step), t);
    }
  }

  lemma SameOpen(s: State, t: State)
    requires SameSteps(s, t)
    ensures OpenInv(s) <==> OpenInv(t)
    ensures forall n: nat :: IsDone(t, n) <==> IsDone(s, n)
  {
    assert forall n: nat :: IsOpen(t, n) <==> IsOpen(s, n);
  }

  lemma {:induction false} LeaveKeepsOpen(s: State, i: nat)
    requires OpenInv(s) && i < |s.open|
    ensures OpenInv(Leave(s, i))
    ensures forall n: nat :: IsDone(Leave(s, i), n) <==> IsDone(s, n) || n == s.open[i].number
    ensures !IsDone(s, s.open[i].number)
  {
    LeaveTakes(s, i);
    assert IsOpen(s, s.open[i].number);
    hide IsOpen;
  }

  lemma LeaveTakes(s: State, i: nat)
    requires OpenInv(s) && i < |s.open|
    ensures OpenInv(Leave(s, i))
    ensures forall n: nat :: IsOpen(Leave(s, i), n) <==> IsOpen(s, n) && n != s.open[i].number
  {
    assert OpenInv(Leave(s, i)) by {
      LeaveAt(s, i);
    }
    forall n: nat
      ensures IsOpen(Leave(s, i), n) <==> IsOpen(s, n) && n != s.open[i].number
    {
      LeaveKeepsOther(s, i, n);
    }
  }

  lemma LeaveAt(s: State, i: nat)
    requires i < |s.open|
    ensures |Leave(s, i).open| == |s.open| - 1
    ensures forall j | 0 <= j < |Leave(s, i).open| :: Leave(s, i).open[j] == s.open[if j < i then j else j + 1]
  {
  }

  lemma LeaveKeepsOther(s: State, i: nat, n: nat)
    requires OpenInv(s) && i < |s.open|
    ensures IsOpen(Leave(s, i), n) <==> IsOpen(s, n) && n != s.open[i].number
  {
    LeaveAt(s, i);
    var t := Leave(s, i);
    if IsOpen(s, n) && n != s.open[i].number {
      var j :| 0 <= j < |s.open| && s.open[j].number == n;
      assert t.open[if j < i then j else j - 1].number == n;
    }
  }

  /** Ending an open step. */
  lemma EndStepKeepsSteps(s: State, i: nat, status: StepStatus)
    requires StepInv(s) && i < |s.open| && status != Start
    ensures StepInv(PutStep(Leave(s, i), s.open[i], status))
  {
    var step := s.open[i];
    var t := PutStep(Leave(s, i), step, status);
    var o := Wrote(Step(StepData(StepName(step.number), status, step.tool)));
    LeaveKeepsOpen(s, i);
    CountsGrow(s.out, o);
    assert 1 <= step.number <= s.counter;
    assert t.out == s.out + [o] && t.counter == s.counter;
    hide StepName, OpenInv, IsDone, Leave, CountStarts, CountEnds, EndsFollow;
    forall n: nat
      ensures Ends(o, n) <==> n == step.number
    {
      if Ends(o, n) {
        StepNamesDiffer(n, step.number);
      }
    }
    assert OpenInv(t) && forall n: nat :: IsDone(t, n) <==> IsDone(Leave(s, i), n) by {
      SameOpen(Leave(s, i), t);
    }
  }

  lemma {:induction false} RunResultKeepsSteps(s: State)
    requires StepInv(s)
    ensures StepInv(OnRunResult(s))
  {
    hide StepInv, FlushDelta, StartFinal;
    StartFinalKeepsSteps(s);
    FlushDeltaKeepsSteps(StartFinal(s));
    SameKeepsSteps(s, ClearText(s));
  }

  lemma {:induction false} EndTextKeepsSteps(s: State, next: NextKind)
    requires StepInv(s)
    ensures StepInv(EndText(s, next))
  {
    hide StepInv, FlushAsNarration, FlushDelta, StartFinal;
    StartFinalKeepsSteps(s);
    FlushDeltaKeepsSteps(StartFinal(s));
    FlushDeltaKeepsSteps(s);
    FlushAsNarrationKeepsSteps(s);
    SameKeepsSteps(FlushAsNarration(s), FlushAsNarration(s).(candidate := false));
  }

  lemma {:induction false} StartStepKeepsSteps(c: Config, s: State, callId: string, tool: string)
    requires StepInv(s)
    ensures StepInv(StartStep(c, s, callId, tool))
  {
    hide StepInv, FlushAsNarration, IndexOf;
    FlushAsNarrationKeepsSteps(s);
    var s1 := if s.textBuf != "" then FlushAsNarration(s) else s;
    SameKeepsSteps(s1, s1.(candidate := false));
    NewStepKeepsSteps(s1.(candidate := false), OpenStep(callId, s1.counter + 1, tool));
  }

  lemma {:induction false} HandleKeepsSteps(c: Config, s: State, event: Event)
    requires StepInv(s)
    ensures StepInv(Handle(c, s, event))
  {
    hide StepInv, Trim, DrainThinking, EmitThinking, OnFinalResult, OnRunResult, FeedText, EndText, StartStep;
    if !s.closed {
      match event
      case FinalResult =>
        StartFinalKeepsSteps(s);
        FinalResultKeepsSteps(s);
      case RunResult =>
        RunResultKeepsSteps(s);
      case TextFed(content) =>
        FeedTextKeepsSteps(s, content);
      case ThinkingFed(content) =>
        var s1 := s.(thinkingBuf := s.thinkingBuf + content);
        SameKeepsSteps(s, s1);
        DrainThinkingKeepsSteps(c, s1);
      case TextEnded(next) =>
        EndTextKeepsSteps(s, next);
      case ThinkingEnded =>
        EmitThinkingKeepsSteps(c, s, s.thinkingBuf);
        var s1 := EmitThinking(c, s, s.thinkingBuf);
        SameKeepsSteps(s1, s1.(thinkingBuf := ""));
      case ToolCall(callId, tool) =>
        StartStepKeepsSteps(c, s, callId, tool);
      case ToolResult(callId, errored) =>
        var i := IndexOf(s.open, callId);
        if i < |s.open| {
          EndStepKeepsSteps(s, i, if errored then Error else End);
        }
      case OtherEvent =>
    }
  }

  lemma FinalResultKeepsSteps(s: State)
    requires StepInv(s) && StepInv(StartFinal(s))
    ensures StepInv(OnFinalResult(s))
  {
    hide StepInv, Trim;
    var t := OnFinalResult(s);
    if t.out == s.out {
      SameKeepsSteps(s, t);
    } else if s.textBuf != "" {
      NoStepKeepsSteps(s, t, Wrote(Narration(Trim(Unstreamed(s)))));
    }
  }

  lemma FeedTextKeepsSteps(s: State, text: string)
    requires StepInv(s)
    ensures StepInv(FeedText(s, text))
  {
    hide StepInv;
    var t := FeedText(s, text);
    if t.out == s.out {
      SameKeepsSteps(s, t);
    } else {
      NoStepKeepsSteps(s, t, Wrote(Delta(text)));
    }
  }

  lemma BeginKeepsSteps(s: State)
    requires StepInv(s)
    ensures StepInv(BeginIteration(s))
  {
    hide StepInv;
    NoStepKeepsSteps(s, BeginIteration(s), Began);
  }

  /** After the first `n` open steps have ended, they are no longer open. */
  lemma {:induction false} EndOpenKeepsSteps(c: Config, s: State, reason: CloseReason, n: nat)
    requires StepInv(s) && n <= |s.open|
    ensures StepInv(EndOpen(c, s, reason, n).(open := s.open[n..]))
  {
    hide StepInv;
    EndOpenKeepsRest(c, s, reason, n);
    if n == 0 {
      assert s.open[0..] == s.open;
    } else {
      EndOpenKeepsSteps(c, s, reason, n - 1);
      EndOpenKeepsRest(c, s, reason, n - 1);
      var before := EndOpen(c, s, reason, n - 1).(open := s.open[n - 1..]);
      EndStepKeepsSteps(before, 0, ClosingStatus(c, reason, s.open[n - 1].tool));
      assert before.open[..0] + before.open[1..] == s.open[n..];
    }
  }

  lemma CloseTextKeepsSteps(s: State, reason: CloseReason)
    requires StepInv(s)
    ensures StepInv(CloseText(s, reason)) && SameSteps(s, CloseText(s, reason))
  {
    hide StepInv, FlushAsNarration, FlushDelta, StartFinal;
    StartFinalKeepsSteps(s);
    FlushDeltaKeepsSteps(StartFinal(s));
    FlushDeltaKeepsSteps(s);
    FlushAsNarrationKeepsSteps(s);
  }

  lemma CloseKeepsSteps(c: Config, s: State, reason: CloseReason)
    requires StepInv(s)
    ensures StepInv(Close(c, s, reason)) && (!s.closed ==> Close(c, s, reason).open == [])
  {
    hide StepInv, EmitThinking, CloseText, EndOpen;
    if !s.closed {
      SameKeepsSteps(s, s.(closed := true));
      EmitThinkingKeepsSteps(c, s.(closed := true), s.thinkingBuf);
      var s0 := EmitThinking(c, s.(closed := true), s.thinkingBuf);
      SameKeepsSteps(s0, s0.(thinkingBuf := ""));
      var s1 := FlushThinking(c, s.(closed := true));
      CloseTextKeepsSteps(s1, reason);
      var s2 := CloseText(s1, reason).(candidate := false);
      SameKeepsSteps(CloseText(s1, reason), s2);
      EndOpenKeepsSteps(c, s2, reason, |s2.open|);
      assert s2.open[|s2.open|..] == [];
    }
  }

  /** Nothing happens while the router is closed: late events write nothing, and closing again does nothing. */
  lemma ClosedIsQuiet(c: Config, s: State, event: Event, reason: CloseReason, again: CloseReason)
    ensures s.closed ==> Handle(c, s, event) == s
    ensures TextInv(s) ==> Close(c, Close(c, s, reason), again) == Close(c, s, reason)
  {
    hide TextInv, EndOpen;
    if TextInv(s) {
      CloseKeepsText(c, s, reason);
    }
  }

  /** Over every sequence of events, closes and iterations: step numbers never repeat, no step ends twice or without
      having been started before, and a closed router has no open step. */
  lemma {:induction false} RunKeepsSteps(c: Config, ops: seq<Op>)
    ensures var s := RunFrom(c, INITIAL, ops);
            StepInv(s) && (s.closed ==> s.open == [])
  {
    hide StepInv, BeginIteration, Handle, Close;
    if ops == [] {
      InitialSteps();
    } else {
      var init, last := ops[..|ops| - 1], ops[|ops| - 1];
      RunKeepsSteps(c, init);
      var s := RunFrom(c, INITIAL, init);
      match last
      case Event(event) =>
        HandleKeepsSteps(c, s, event);
        HandleKeepsClosed(c, s, event);
      case Closing(reason) =>
        CloseKeepsSteps(c, s, reason);
        ClosedClose(c, s, reason);
      case Beginning =>
        BeginKeepsSteps(s);
        BeginOpens(s);
    }
  }

  lemma ClosedClose(c: Config, s: State, reason: CloseReason)
    ensures s.closed ==> Close(c, s, reason) == s
  {
  }

  lemma BeginOpens(s: State)
    ensures !BeginIteration(s).closed
  {
  }

  lemma {:induction false} HandleKeepsClosed(c: Config, s: State, event: Event)
    ensures Handle(c, s, event).closed == s.closed && (s.closed ==> Handle(c, s, event) == s)
  {
    hide OnFinalResult, OnRunResult, FeedText, FeedThinking, EndText, FlushThinking, StartStep, FinishStep;
    match event
    case FinalResult => FlushesKeepClosed(s);
    case RunResult => EventsKeepClosed(c, s, "", NoNext, "", false);
    case TextFed(content) => EventsKeepClosed(c, s, content, NoNext, "", false);
    case ThinkingFed(content) => EventsKeepClosed(c, s, content, NoNext, "", false);
    case TextEnded(next) => EventsKeepClosed(c, s, "", next, "", false);
    case ThinkingEnded => EventsKeepClosed(c, s, "", NoNext, "", false);
    case ToolCall(callId, tool) => StartStepKeepsClosed(c, s, callId, tool);
    case ToolResult(callId, errored) => EventsKeepClosed(c, s, "", NoNext, callId, errored);
    case OtherEvent =>
  }

  lemma FlushesKeepClosed(s: State)
    ensures FlushAsNarration(s).closed == s.closed && FlushDelta(s).closed == s.closed
    ensures StartFinal(s).closed == s.closed && OnFinalResult(s).closed == s.closed
  {
    hide Trim;
  }

  lemma {:induction false} EventsKeepClosed(c: Config, s: State, text: string, next: NextKind, callId: string,
                                            errored: bool)
    ensures OnRunResult(s).closed == s.closed && FeedText(s, text).closed == s.closed
    ensures EndText(s, next).closed == s.closed && FlushThinking(c, s).closed == s.closed
    ensures FinishStep(s, callId, errored).closed == s.closed && FeedThinking(c, s, text).closed == s.closed
  {
    FlushesKeepClosed(s);
    FlushesKeepClosed(StartFinal(s));
    DrainThinkingKeepsClosed(c, s.(thinkingBuf := s.thinkingBuf + text));
    hide Trim, DrainThinking, FlushAsNarration, FlushDelta, StartFinal, IndexOf;
  }

  lemma {:induction false} StartStepKeepsClosed(c: Config, s: State, callId: string, tool: string)
    ensures StartStep(c, s, callId, tool).closed == s.closed
  {
    FlushesKeepClosed(s);
    hide FlushAsNarration, IndexOf, HasStep;
  }

  lemma {:induction false} DrainThinkingKeepsClosed(c: Config, s: State)
    ensures DrainThinking(c, s).closed == s.closed
    decreases |s.thinkingBuf|
  {
    hide Trim, Find;
    var i := Find(s.thinkingBuf, "\n\n");
    if i < |s.thinkingBuf| {
      DrainThinkingKeepsClosed(c, EmitThinking(c, s.(thinkingBuf := s.thinkingBuf[i + 2..]), s.thinkingBuf[..i]));
    }
  }

  lemma InitialSteps()
    ensures StepInv(INITIAL)
  {
  }

  // ----- When every step ends

  /** A call that takes over the id of a step that is still open. */
  predicate TakesOver(c: Config, s: State, op: Op) {
    && op.Event? && op.event.ToolCall? && !s.closed && HasStep(c, op.event.tool)
    && IndexOf(s.open, op.event.callId) < |s.open|
  }

  /** No two calls that are open at the same time share an id. */
  predicate DistinctCalls(c: Config, ops: seq<Op>) {
    forall i | 0 <= i < |ops| :: !TakesOver(c, RunFrom(c, INITIAL, ops[..i]), ops[i])
  }

  lemma FlushesKeepOpen(s: State)
    ensures FlushAsNarration(s).lost == s.lost && FlushAsNarration(s).open == s.open
    ensures FlushAsNarration(s).counter == s.counter && FlushDelta(s).lost == s.lost
    ensures StartFinal(s).lost == s.lost && OnFinalResult(s).lost == s.lost
  {
    hide Trim;
  }

  lemma EventsKeepLost(c: Config, s: State, text: string, next: NextKind, callId: string, errored: bool)
    ensures OnRunResult(s).lost == s.lost && FeedText(s, text).lost == s.lost && EndText(s, next).lost == s.lost
    ensures FlushThinking(c, s).lost == s.lost && FinishStep(s, callId, errored).lost == s.lost
    ensures FeedThinking(c, s, text).lost == s.lost
  {
    FlushesKeepOpen(s);
    FlushesKeepOpen(StartFinal(s));
    DrainThinkingKeepsLost(c, s.(thinkingBuf := s.thinkingBuf + text));
    hide Trim, DrainThinking, FlushAsNarration, FlushDelta, StartFinal, IndexOf;
  }

  lemma StartStepLoses(c: Config, s: State, callId: string, tool: string)
    ensures var i := IndexOf(s.open, callId);
            StartStep(c, s, callId, tool).lost
            == if HasStep(c, tool) && i < |s.open| then s.lost + {s.open[i].number} else s.lost
  {
    FlushesKeepOpen(s);
    hide FlushAsNarration, HasStep, IndexOf;
  }

  lemma HandleLoses(c: Config, s: State, event: Event)
    requires !s.closed
    ensures event.ToolCall? && HasStep(c, event.tool) && IndexOf(s.open, event.callId) < |s.open| ==>
              Handle(c, s, event).lost == s.lost + {s.open[IndexOf(s.open, event.callId)].number}
    ensures !(event.ToolCall? && HasStep(c, event.tool) && IndexOf(s.open, event.callId) < |s.open|) ==>
              Handle(c, s, event).lost == s.lost
  {
    FlushesKeepOpen(s);
    hide OnFinalResult, OnRunResult, FeedText, FeedThinking, EndText, FlushThinking, StartStep, FinishStep,
         HasStep, IndexOf;
    match event
    case ToolCall(callId, tool) => StartStepLoses(c, s, callId, tool);
    case TextFed(content) => EventsKeepLost(c, s, content, NoNext, "", false);
    case ThinkingFed(content) => EventsKeepLost(c, s, content, NoNext, "", false);
    case TextEnded(next) => EventsKeepLost(c, s, "", next, "", false);
    case ToolResult(callId, errored) => EventsKeepLost(c, s, "", NoNext, callId, errored);
    case RunResult => EventsKeepLost(c, s, "", NoNext, "", false);
    case ThinkingEnded => EventsKeepLost(c, s, "", NoNext, "", false);
    case FinalResult =>
    case OtherEvent =>
  }

  lemma CloseLoses(c: Config, s: State, reason: CloseReason)
    ensures Close(c, s, reason).lost == s.lost
  {
    hide Trim, EndOpen, FlushAsNarration, FlushDelta, StartFinal;
    if !s.closed {
      var s0 := FlushThinking(c, s.(closed := true));
      FlushesKeepOpen(s0);
      FlushesKeepOpen(StartFinal(s0));
      var s1 := CloseText(s0, reason).(candidate := false);
      EndOpenKeepsRest(c, s1, reason, |s1.open|);
    }
  }

  lemma ApplyLoses(c: Config, s: State, op: Op)
    ensures Apply(c, s, op).lost >= s.lost
    ensures Apply(c, s, op).lost == s.lost || TakesOver(c, s, op)
    ensures TakesOver(c, s, op) ==> s.open[IndexOf(s.open, op.event.callId)].number in Apply(c, s, op).lost
  {
    hide Handle, Close, HasStep, IndexOf;
    match op
    case Event(event) =>
      if s.closed {
        HandleKeepsClosed(c, s, event);
      } else {
        HandleLoses(c, s, event);
      }
    case Closing(reason) => CloseLoses(c, s, reason);
    case Beginning =>
  }

  lemma {:induction false} DrainThinkingKeepsLost(c: Config, s: State)
    ensures DrainThinking(c, s).lost == s.lost
    decreases |s.thinkingBuf|
  {
    hide Trim, Find;
    var i := Find(s.thinkingBuf, "\n\n");
    if i < |s.thinkingBuf| {
      DrainThinkingKeepsLost(c, EmitThinking(c, s.(thinkingBuf := s.thinkingBuf[i + 2..]), s.thinkingBuf[..i]));
    }
  }

  lemma {:induction false} LosesIff(c: Config, ops: seq<Op>)
    ensures RunFrom(c, INITIAL, ops).lost == {} <==> DistinctCalls(c, ops)
  {
    hide Apply, TakesOver;
    if ops != [] {
      var init, last := ops[..|ops| - 1], ops[|ops| - 1];
      LosesIff(c, init);
      var s := RunFrom(c, INITIAL, init);
      ApplyLoses(c, s, last);
      assert forall i | 0 <= i < |init| :: init[..i] == ops[..i] && init[i] == ops[i];
      if DistinctCalls(c, ops) {
        assert DistinctCalls(c, init);
        assert !TakesOver(c, s, last);
      }
    }
  }

  /** In a closed router every step that was started has ended, exactly once, if and only if no call took over the
      id of a step that was still open. */
  lemma AllStepsEndIff(c: Config, ops: seq<Op>)
    requires RunFrom(c, INITIAL, ops).closed
    ensures var s := RunFrom(c, INITIAL, ops);
            (forall n | 1 <= n <= s.counter :: CountEnds(s.out, n) == 1) <==> DistinctCalls(c, ops)
  {
    hide DistinctCalls, RunFrom, CountStarts, CountEnds, EndsFollow;
    RunKeepsSteps(c, ops);
    LosesIff(c, ops);
    var s := RunFrom(c, INITIAL, ops);
    assert forall n: nat :: !IsOpen(s, n);
    if s.lost != {} {
      var n :| n in s.lost;
      assert CountEnds(s.out, n) == 0;
    }
  }

  /** A run in which a call takes over the id of an open step: that step is started and never ended. */
  lemma {:induction false} ReusedIdNeverEnds(c: Config, callId: string, tool: string, reason: CloseReason)
    requires HasStep(c, tool)
    ensures var call := Event(ToolCall(callId, tool));
            var s := RunFrom(c, INITIAL, [call, call, Closing(reason)]);
            s.closed && CountStarts(s.out, 1) == 1 && CountEnds(s.out, 1) == 0
  {
    var call := Event(ToolCall(callId, tool));
    var one, two, all := [call], [call] + [call], [call] + [call] + [Closing(reason)];
    assert all == [call, call, Closing(reason)];
    RunOne(c, call);
    RunMore(c, one, call);
    RunMore(c, two, Closing(reason));
    FirstCall(c, callId, tool);
    hide Apply, HasStep, CountStarts, CountEnds, EndsFollow, RunFrom;
    ApplyLoses(c, RunFrom(c, INITIAL, one), call);
    ApplyLoses(c, RunFrom(c, INITIAL, two), Closing(reason));
    RunKeepsSteps(c, one);
    RunKeepsSteps(c, two);
    RunKeepsSteps(c, all);
    ClosesAll(c, RunFrom(c, INITIAL, two), reason);
  }

  lemma FirstCall(c: Config, callId: string, tool: string)
    requires HasStep(c, tool)
    ensures var s := Apply(c, INITIAL, Event(ToolCall(callId, tool)));
            && !s.closed && s.counter == 1 && s.open == [OpenStep(callId, 1, tool)]
            && TakesOver(c, s, Event(ToolCall(callId, tool))) && IndexOf(s.open, callId) == 0
  {
    hide HasStep;
    assert IndexOf([], callId) == 0;
  }

  lemma ClosesAll(c: Config, s: State, reason: CloseReason)
    ensures Apply(c, s, Closing(reason)).closed
  {
    hide Trim, EndOpen, FlushAsNarration, FlushDelta, StartFinal;
    if !s.closed {
      var s0 := FlushThinking(c, s.(closed := true));
      FlushesKeepClosed(s0);
      FlushesKeepClosed(StartFinal(s0));
      var s1 := CloseText(s0, reason).(candidate := false);
      EndOpenKeepsRest(c, s1, reason, |s1.open|);
    }
  }
}
