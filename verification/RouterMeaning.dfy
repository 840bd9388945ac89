/** What becomes of the text, the thinking and the steps of a run, said of the sequence of its operations alone. */
module RouterMeaning {
  import opened Text
  import opened Emissions
  import opened RouterRules

  // ----- Which text is answer, and which is narration

  /** Operations that end the text before them. */
  predicate EndsText(op: Op) {
    || op == Beginning
    || op.Closing?
    || (op.Event? && (op.event.ToolCall? || op.event.RunResult? || (op.event.TextEnded? && op.event.next != TextNext)))
  }

  /** The router has been closed since the last iteration began. */
  predicate Shut(ops: seq<Op>) {
    ops != [] && (ops[|ops| - 1].Closing? || (ops[|ops| - 1] != Beginning && Shut(ops[..|ops| - 1])))
  }

  /** The text that has been fed and about which nothing has been decided. */
  function Waiting(ops: seq<Op>): string
    decreases |ops|, 0
  {
    if ops == [] then ""
    else
      var init, last := ops[..|ops| - 1], ops[|ops| - 1];
      if EndsText(last) then ""
      else if last.Event? && last.event.TextFed? && !Answering(init) && !Shut(init) then Waiting(init) + last.event.content
      else Waiting(init)
  }

  /** A final result came while that text was waiting. */
  predicate Marked(ops: seq<Op>)
    decreases |ops|, 0
  {
    if ops == [] then false
    else
      var init, last := ops[..|ops| - 1], ops[|ops| - 1];
      !EndsText(last) && (Marked(init) || (last == Event(FinalResult) && Waiting(init) != ""))
  }

  /** The operation makes the waiting text answer: the run has its result, or the text was marked and ends in front of
      nothing or of thinking, or the router completes. */
  predicate Chosen(ops: seq<Op>, op: Op)
    decreases |ops|, 1
  {
    || op == Event(RunResult)
    || (Marked(ops) && (op == Event(TextEnded(NoNext)) || op == Event(TextEnded(ThinkingNext)) || op == Closing(Complete)))
  }

  /** The final answer of the iteration has started. */
  predicate Answering(ops: seq<Op>)
    decreases |ops|, 0
  {
    if ops == [] then false
    else
      var init, last := ops[..|ops| - 1], ops[|ops| - 1];
      if last == Beginning then false
      else
        || Answering(init)
        || (!Shut(init) && if Waiting(init) == "" then last == Event(FinalResult) else EndsText(last) && Chosen(init, last))
  }

  /** How all text left, in order. */
  function Leaves(ops: seq<Op>): seq<Flush> {
    if ops == [] then []
    else
      var init, last := ops[..|ops| - 1], ops[|ops| - 1];
      Leaves(init)
      + if last.Event? && last.event.TextFed? && last.event.content != "" && Answering(init) && !Shut(init)
        then [AsDelta(last.event.content)]
        else if Waiting(init) == "" || !EndsText(last) then []
        else if last == Beginning then [Discarded(Waiting(init))]
        else if Chosen(init, last) then [AsDelta(Waiting(init))]
        else [AsNarration(Waiting(init))]
  }

  /** The part of the router's state that decides about text. */
  datatype Texts = Texts(waiting: string, marked: bool, answering: bool, shut: bool, left: seq<Flush>)

  function TextsOf(s: State): Texts {
    Texts(s.textBuf, s.candidate, s.started, s.closed, s.raw)
  }

  lemma {:induction false} DrainThinkingTexts(c: Config, s: State)
    ensures TextsOf(DrainThinking(c, s)) == TextsOf(s)
    decreases |s.thinkingBuf|
  {
    hide Trim, Find;
    var i := Find(s.thinkingBuf, "\n\n");
    if i < |s.thinkingBuf| {
      DrainThinkingTexts(c, EmitThinking(c, s.(thinkingBuf := s.thinkingBuf[i + 2..]), s.thinkingBuf[..i]));
    }
  }

  lemma Quiet(c: Config, s: State, text: string, callId: string, errored: bool)
    ensures TextsOf(FeedThinking(c, s, text)) == TextsOf(s)
    ensures TextsOf(FlushThinking(c, s)) == TextsOf(s)
    ensures TextsOf(FinishStep(s, callId, errored)) == TextsOf(s)
  {
    hide Trim, DrainThinking, IndexOf;
    DrainThinkingTexts(c, s.(thinkingBuf := s.thinkingBuf + text));
  }

  /** The whole buffer leaves. */
  lemma FlushTexts(s: State)
    requires s.streamedLen == 0
    ensures TextsOf(FlushAsNarration(s))
         == Texts("", s.candidate, s.started, s.closed, s.raw + if s.textBuf == "" then [] else [AsNarration(s.textBuf)])
    ensures TextsOf(FlushDelta(s))
         == if s.textBuf == "" then TextsOf(s) else Texts("", false, s.started, s.closed, s.raw + [AsDelta(s.textBuf)])
    ensures StartFinal(s).textBuf == s.textBuf && StartFinal(s).streamedLen == 0
    ensures TextsOf(StartFinal(s))
         == Texts(s.textBuf, s.candidate && s.started, true, s.closed, s.raw)
  {
    hide Trim;
    assert s.textBuf[0..] == s.textBuf;
    assert s.raw + [] == s.raw;
  }

  lemma EndTexts(s: State, next: NextKind)
    requires s.streamedLen == 0 && (s.started ==> s.textBuf == "")
    ensures TextsOf(EndText(s, next))
         == if s.textBuf == "" || next == TextNext then TextsOf(s)
            else if s.candidate && (next == NoNext || next == ThinkingNext)
            then Texts("", false, true, s.closed, s.raw + [AsDelta(s.textBuf)])
            else Texts("", false, s.started, s.closed, s.raw + [AsNarration(s.textBuf)])
  {
    FlushTexts(s);
    FlushTexts(StartFinal(s));
    hide FlushAsNarration, FlushDelta, StartFinal;
    assert s.textBuf[0..] == s.textBuf;
  }

  lemma ResultTexts(s: State)
    requires s.streamedLen == 0 && (s.started ==> s.textBuf == "" && !s.candidate) && (s.candidate ==> s.textBuf != "")
    ensures TextsOf(OnFinalResult(s))
         == if s.textBuf == "" then Texts("", false, true, s.closed, s.raw)
            else Texts(s.textBuf, true, s.started, s.closed, s.raw)
    ensures TextsOf(OnRunResult(s))
         == if s.textBuf == "" then TextsOf(s) else Texts("", false, true, s.closed, s.raw + [AsDelta(s.textBuf)])
  {
    FlushTexts(s);
    FlushTexts(StartFinal(s));
    hide FlushAsNarration, FlushDelta;
    assert s.textBuf[0..] == s.textBuf;
  }

  lemma CallTexts(c: Config, s: State, callId: string, tool: string)
    requires s.streamedLen == 0
    ensures TextsOf(StartStep(c, s, callId, tool))
         == Texts("", false, s.started, s.closed, s.raw + if s.textBuf == "" then [] else [AsNarration(s.textBuf)])
  {
    FlushTexts(s);
    hide FlushAsNarration, HasStep, Enter, PutStep;
    assert s.raw + [] == s.raw;
    var s1 := (if s.textBuf != "" then FlushAsNarration(s) else s).(candidate := false);
    EnterTexts(s1, OpenStep(callId, s1.counter + 1, tool));
  }

  lemma EnterTexts(s: State, step: OpenStep)
    ensures TextsOf(PutStep(Enter(s, step), step, Start)) == TextsOf(s)
  {
    hide IndexOf;
  }

  lemma CloseTexts(c: Config, s: State, reason: CloseReason)
    requires s.streamedLen == 0 && !s.closed && (s.started ==> s.textBuf == "")
    ensures TextsOf(Close(c, s, reason))
         == if s.textBuf == "" then Texts("", false, s.started, true, s.raw)
            else if s.candidate && reason == Complete then Texts("", false, true, true, s.raw + [AsDelta(s.textBuf)])
            else Texts("", false, s.started, true, s.raw + [AsNarration(s.textBuf)])
  {
    hide Trim, EndOpen, FlushAsNarration, FlushDelta, StartFinal;
    var s0 := FlushThinking(c, s.(closed := true));
    assert s0.streamedLen == 0 && TextsOf(s0) == TextsOf(s.(closed := true));
    FlushTexts(s0);
    FlushTexts(StartFinal(s0));
    assert s.textBuf[0..] == s.textBuf;
    var s1 := CloseText(s0, reason).(candidate := false);
    EndOpenKeepsRest(c, s1, reason, |s1.open|);
  }

  /** The text that waits is marked only while it waits, and none waits in an answer or behind a close. */
  lemma {:induction false} WaitingIsOpen(ops: seq<Op>)
    ensures Marked(ops) ==> Waiting(ops) != ""
    ensures Answering(ops) || Shut(ops) ==> Waiting(ops) == ""
  {
    if ops != [] {
      WaitingIsOpen(ops[..|ops| - 1]);
    }
  }

  /** What the operations say. */
  function Said(ops: seq<Op>): Texts {
    Texts(Waiting(ops), Marked(ops), Answering(ops), Shut(ops), Leaves(ops))
  }

  /** What the operations say when one more has come. */
  lemma SaidNext(ops: seq<Op>)
    requires ops != []
    ensures var init, last := ops[..|ops| - 1], ops[|ops| - 1];
            var t := Said(init);
            && (Said(ops).waiting ==
                  if EndsText(last) then ""
                  else if last.Event? && last.event.TextFed? && !t.answering && !t.shut then t.waiting + last.event.content
                  else t.waiting)
            && (Said(ops).marked <==> !EndsText(last) && (t.marked || (last == Event(FinalResult) && t.waiting != "")))
            && (Said(ops).shut <==> last.Closing? || (last != Beginning && t.shut))
            && (Said(ops).answering <==>
                  last != Beginning
                  && (t.answering
                      || (!t.shut && if t.waiting == "" then last == Event(FinalResult)
                                     else EndsText(last) && Chosen(init, last))))
            && Said(ops).left ==
               t.left + if last.Event? && last.event.TextFed? && last.event.content != "" && t.answering && !t.shut
                        then [AsDelta(last.event.content)]
                        else if t.waiting == "" || !EndsText(last) then []
                        else if last == Beginning then [Discarded(t.waiting)]
                        else if Chosen(init, last) then [AsDelta(t.waiting)]
                        else [AsNarration(t.waiting)]
  {
    hide EndsText, Chosen;
  }

  lemma QuietTexts(c: Config, s: State, event: Event)
    requires event.ThinkingFed? || event == ThinkingEnded || event.ToolResult? || event == OtherEvent
    ensures TextsOf(Handle(c, s, event)) == TextsOf(s)
  {
    hide FeedThinking, FlushThinking, FinishStep;
    match event
    case ThinkingFed(content) => Quiet(c, s, content, "", false);
    case ThinkingEnded => Quiet(c, s, "", "", false);
    case ToolResult(callId, errored) => Quiet(c, s, "", callId, errored);
    case OtherEvent =>
  }

  lemma FedTexts(s: State, content: string)
    ensures TextsOf(FeedText(s, content))
         == if content == "" then TextsOf(s)
            else if s.started then Texts(s.textBuf, s.candidate, true, s.closed, s.raw + [AsDelta(content)])
            else Texts(s.textBuf + content, s.candidate, false, s.closed, s.raw)
  {
  }

  lemma DecidingTexts(c: Config, s: State, event: Event)
    requires !s.closed && !event.ThinkingFed? && event != ThinkingEnded && !event.ToolResult? && event != OtherEvent
    ensures Handle(c, s, event) == match event
                                   case FinalResult => OnFinalResult(s)
                                   case RunResult => OnRunResult(s)
                                   case TextFed(content) => FeedText(s, content)
                                   case TextEnded(next) => EndText(s, next)
                                   case ToolCall(callId, tool) => StartStep(c, s, callId, tool)
                                   case _ => s
  {
    hide OnFinalResult, OnRunResult, FeedText, EndText, StartStep;
  }

  lemma EventTexts(c: Config, s: State, ops: seq<Op>, event: Event)
    requires TextInv(s) && TextsOf(s) == Said(ops) && !s.closed
    ensures TextsOf(Handle(c, s, event)) == Said(ops + [Event(event)])
  {
    var all := ops + [Event(event)];
    assert all[..|all| - 1] == ops;
    SaidNext(all);
    WaitingIsOpen(ops);
    TextInvMeans(s);
    hide Waiting, Marked, Answering, Leaves, Shut, TextInv, OnFinalResult, OnRunResult, FeedText, EndText, StartStep, Handle;
    assert s.raw + [] == s.raw;
    if event.ThinkingFed? || event == ThinkingEnded || event.ToolResult? || event == OtherEvent {
      QuietTexts(c, s, event);
    } else {
      DecidingTexts(c, s, event);
      match event
      case FinalResult => ResultTexts(s);
      case RunResult => ResultTexts(s);
      case TextFed(content) =>
        FedTexts(s, content);
        assert s.textBuf + "" == s.textBuf;
      case TextEnded(next) => EndTexts(s, next);
      case ToolCall(callId, tool) => CallTexts(c, s, callId, tool);
    }
  }

  lemma TextInvMeans(s: State)
    requires TextInv(s)
    ensures s.streamedLen == 0 && (s.started || s.closed ==> s.textBuf == "")
  {
  }

  /** Over every run, the text that waits is the text about which nothing is decided, and all other text has left as the
      operations say: as answer when it was chosen or fed to a started answer, discarded by a new iteration, and
      otherwise as narration. */
  lemma {:induction false} TextFollows(c: Config, ops: seq<Op>)
    ensures TextsOf(RunFrom(c, INITIAL, ops)) == Said(ops)
  {
    hide TextInv, Handle, Close, BeginIteration, Said;
    if ops == [] {
      NothingSaid();
    } else {
      var init, last := ops[..|ops| - 1], ops[|ops| - 1];
      var s := RunFrom(c, INITIAL, init);
      TextFollows(c, init);
      RunKeepsText(c, init);
      assert init + [last] == ops;
      if s.closed && last != Beginning {
        ShutFollows(c, s, init, last);
      } else {
        match last
        case Event(event) => EventTexts(c, s, init, event);
        case Closing(reason) => ClosingTexts(c, s, init, reason);
        case Beginning => BeginningTexts(s, init);
      }
    }
  }

  lemma NothingSaid()
    ensures TextsOf(INITIAL) == Said([])
  {
  }

  lemma ShutFollows(c: Config, s: State, ops: seq<Op>, op: Op)
    requires TextInv(s) && TextsOf(s) == Said(ops) && s.closed && op != Beginning
    ensures TextsOf(Apply(c, s, op)) == Said(ops + [op])
  {
    var all := ops + [op];
    assert all[..|all| - 1] == ops;
    SaidNext(all);
    WaitingIsOpen(ops);
    hide Waiting, Marked, Answering, Leaves, Shut, Handle, Close, Chosen;
    assert s.raw + [] == s.raw;
    match op
    case Event(event) => HandleKeepsClosed(c, s, event);
    case Closing(reason) => ClosedClose(c, s, reason);
  }

  lemma ClosingTexts(c: Config, s: State, ops: seq<Op>, reason: CloseReason)
    requires TextInv(s) && TextsOf(s) == Said(ops) && !s.closed
    ensures TextsOf(Close(c, s, reason)) == Said(ops + [Closing(reason)])
  {
    var all := ops + [Closing(reason)];
    assert all[..|all| - 1] == ops;
    SaidNext(all);
    WaitingIsOpen(ops);
    TextInvMeans(s);
    hide Waiting, Marked, Answering, Leaves, Shut, TextInv, Close;
    assert s.raw + [] == s.raw;
    CloseTexts(c, s, reason);
  }

  lemma BeginningTexts(s: State, ops: seq<Op>)
    requires TextInv(s) && TextsOf(s) == Said(ops)
    ensures TextsOf(BeginIteration(s)) == Said(ops + [Beginning])
  {
    var all := ops + [Beginning];
    assert all[..|all| - 1] == ops;
    SaidNext(all);
    TextInvMeans(s);
    hide Waiting, Marked, Answering, Leaves, Shut, TextInv, Chosen;
    assert s.raw + [] == s.raw && s.textBuf[0..] == s.textBuf;
  }

  /** Text is marked exactly when a final result came while it was waiting and nothing has ended it since. */
  lemma {:induction false} MarkedMeans(ops: seq<Op>)
    ensures Marked(ops) <==>
            exists i :: 0 <= i < |ops| && ops[i] == Event(FinalResult) && Waiting(ops[..i]) != ""
                        && forall k | i < k < |ops| :: !EndsText(ops[k])
  {
    hide Waiting, EndsText;
    if ops != [] {
      var init, last := ops[..|ops| - 1], ops[|ops| - 1];
      MarkedMeans(init);
      assert forall i | 0 <= i < |init| :: init[..i] == ops[..i] && init[i] == ops[i];
      if Marked(init) && !EndsText(last) {
        var i :| 0 <= i < |init| && init[i] == Event(FinalResult) && Waiting(init[..i]) != ""
                 && forall k | i < k < |init| :: !EndsText(init[k]);
        assert ops[i] == Event(FinalResult) && Waiting(ops[..i]) != "" && forall k | i < k < |ops| :: !EndsText(ops[k]);
      }
      FinalResultEndsNothing();
    }
  }

  lemma FinalResultEndsNothing()
    ensures !EndsText(Event(FinalResult))
  {
  }

  // ----- What is shown of the thinking

  /** The paragraphs of a text: its pieces between blank lines, found from the left. */
  function Paragraphs(t: string): (ps: seq<string>)
    ensures ps != []
  {
    var i := Find(t, "\n\n");
    if i == |t| then [t] else [t[..i]] + Paragraphs(t[i + 2..])
  }

  /** All paragraphs but the one that may still go on. */
  function WholeOnes(t: string): seq<string> {
    Paragraphs(t)[..|Paragraphs(t)| - 1]
  }

  function Partial(t: string): string {
    Paragraphs(t)[|Paragraphs(t)| - 1]
  }

  /** Paragraphs are shown trimmed, and only when something is left of them. */
  function Thoughts(ps: seq<string>): seq<Emission> {
    if ps == [] then []
    else Thoughts(ps[..|ps| - 1]) + if Trim(ps[|ps| - 1]) == "" then [] else [Thinking(Trim(ps[|ps| - 1]))]
  }

  /** The thinking that has been fed and not ended. */
  function Pondered(ops: seq<Op>): string {
    if ops == [] then ""
    else
      var init, last := ops[..|ops| - 1], ops[|ops| - 1];
      if Shut(init) || last == Beginning || last.Closing? || last == Event(ThinkingEnded) then ""
      else if last.Event? && last.event.ThinkingFed? then Pondered(init) + last.event.content
      else Pondered(init)
  }

  /** What is shown of the thinking that has ended; of thinking that a new iteration cuts off, the complete paragraphs. */
  function Concluded(ops: seq<Op>): seq<Emission> {
    if ops == [] then []
    else
      var init, last := ops[..|ops| - 1], ops[|ops| - 1];
      Concluded(init)
      + if Shut(init) then []
        else if last == Beginning then Thoughts(WholeOnes(Pondered(init)))
        else if last.Closing? || last == Event(ThinkingEnded) then Thoughts(Paragraphs(Pondered(init)))
        else []
  }

  /** The thinking among the outputs. */
  function ThinkingOut(out: seq<Output>): seq<Emission> {
    if out == [] then []
    else
      var last := out[|out| - 1];
      ThinkingOut(out[..|out| - 1]) + if last.Wrote? && last.e.Thinking? then [last.e] else []
  }

  lemma ThinkingGrows(out: seq<Output>, o: Output)
    ensures ThinkingOut(out + [o]) == ThinkingOut(out) + if o.Wrote? && o.e.Thinking? then [o.e] else []
  {
    assert (out + [o])[..|out|] == out;
  }

  lemma {:induction false} ThoughtsSplit(a: seq<string>, b: seq<string>)
    ensures Thoughts(a + b) == Thoughts(a) + Thoughts(b)
  {
    if b == [] {
      assert a + b == a;
    } else {
      assert (a + b)[..|a + b| - 1] == a + b[..|b| - 1];
      ThoughtsSplit(a, b[..|b| - 1]);
    }
  }

  lemma OneThought(p: string)
    ensures Thoughts([p]) == if Trim(p) == "" then [] else [Thinking(Trim(p))]
  {
    assert [p][..0] == [];
  }

  /** More text goes on with the last paragraph only. */
  lemma {:induction false} ParagraphsMore(x: string, y: string)
    ensures Paragraphs(x + y) == WholeOnes(x) + Paragraphs(Partial(x) + y)
    decreases |x|
  {
    hide Find;
    var i := Find(x, "\n\n");
    if i == |x| {
      assert [] + Paragraphs(x + y) == Paragraphs(x + y);
    } else {
      FindInLonger(x, y, "\n\n");
      var rest := x[i + 2..];
      assert (x + y)[..i] == x[..i] && (x + y)[i + 2..] == rest + y;
      ParagraphsMore(rest, y);
      assert Paragraphs(x) == [x[..i]] + Paragraphs(rest);
      hide Paragraphs;
      assert WholeOnes(x) == [x[..i]] + WholeOnes(rest) && Partial(x) == Partial(rest);
      assert [x[..i]] + (WholeOnes(rest) + Paragraphs(Partial(rest) + y))
          == [x[..i]] + WholeOnes(rest) + Paragraphs(Partial(rest) + y);
    }
  }

  /** The last paragraph has no blank line. */
  lemma {:induction false} PartialIsPartial(t: string)
    ensures Paragraphs(Partial(t)) == [Partial(t)]
    decreases |t|
  {
    var i := Find(t, "\n\n");
    if i < |t| {
      PartialIsPartial(t[i + 2..]);
      assert Partial(t) == Partial(t[i + 2..]);
    }
  }

  /** The thinking in the buffer and the thinking put out. */
  ghost predicate Thinks(c: Config, s: State, pondered: string, concluded: seq<Emission>) {
    && s.thinkingBuf == Partial(pondered)
    && ThinkingOut(s.out) == if c.emitThinking then concluded + Thoughts(WholeOnes(pondered)) else []
  }

  lemma ParagraphsUnfold(t: string, i: nat)
    requires i == Find(t, "\n\n") < |t|
    ensures i + 2 <= |t| && Paragraphs(t) == [t[..i]] + Paragraphs(t[i + 2..])
  {
    hide Find;
  }

  lemma FirstThenRest(t: string, first: string, u: string)
    requires Paragraphs(t) == [first] + Paragraphs(u)
    ensures WholeOnes(t) == [first] + WholeOnes(u) && Partial(t) == Partial(u)
  {
    hide Paragraphs;
  }

  lemma EmitThinks(c: Config, s: State, text: string)
    ensures var t := EmitThinking(c, s, text);
            && t.thinkingBuf == s.thinkingBuf
            && ThinkingOut(t.out) == ThinkingOut(s.out) + if c.emitThinking then Thoughts([text]) else []
  {
    ThinkingGrows(s.out, Wrote(Thinking(Trim(text))));
    OneThought(text);
    hide Trim, ThinkingOut, Thoughts;
    assert ThinkingOut(s.out) + [] == ThinkingOut(s.out);
  }

  /** Draining puts out the complete paragraphs and keeps the last. */
  lemma {:induction false} DrainThinks(c: Config, s: State)
    ensures var t := DrainThinking(c, s);
            && t.thinkingBuf == Partial(s.thinkingBuf)
            && ThinkingOut(t.out)
               == ThinkingOut(s.out) + if c.emitThinking then Thoughts(WholeOnes(s.thinkingBuf)) else []
    decreases |s.thinkingBuf|
  {
    hide Find, Thoughts, ThinkingOut, EmitThinking;
    var b := s.thinkingBuf;
    var i := Find(b, "\n\n");
    if i == |b| {
      NoThoughts();
      assert ThinkingOut(s.out) + [] == ThinkingOut(s.out);
    } else {
      ParagraphsUnfold(b, i);
      FirstThenRest(b, b[..i], b[i + 2..]);
      var s0 := s.(thinkingBuf := b[i + 2..]);
      EmitThinks(c, s0, b[..i]);
      hide Paragraphs;
      DrainThinks(c, EmitThinking(c, s0, b[..i]));
      ThoughtsSplit([b[..i]], WholeOnes(b[i + 2..]));
      ThreeParts(ThinkingOut(s.out), Thoughts([b[..i]]), Thoughts(WholeOnes(b[i + 2..])));
    }
  }

  lemma ThreeParts(a: seq<Emission>, b: seq<Emission>, c: seq<Emission>)
    ensures a + b + c == a + (b + c) && a + [] + [] == a + []
  {
  }

  lemma NoThoughts()
    ensures Thoughts([]) == [] && ThinkingOut([]) == []
  {
  }

  lemma FeedThinks(c: Config, s: State, pondered: string, concluded: seq<Emission>, text: string)
    requires Thinks(c, s, pondered, concluded)
    ensures Thinks(c, FeedThinking(c, s, text), pondered + text, concluded)
  {
    hide Thoughts, ThinkingOut, Paragraphs, DrainThinking;
    if text == "" {
      assert pondered + text == pondered;
    } else {
      var s1 := s.(thinkingBuf := s.thinkingBuf + text);
      DrainThinks(c, s1);
      ParagraphsMore(pondered, text);
      var more := Partial(pondered) + text;
      assert WholeOnes(pondered + text) == WholeOnes(pondered) + WholeOnes(more) && Partial(pondered + text) == Partial(more);
      ThoughtsSplit(WholeOnes(pondered), WholeOnes(more));
      assert concluded + Thoughts(WholeOnes(pondered)) + Thoughts(WholeOnes(more))
          == concluded + (Thoughts(WholeOnes(pondered)) + Thoughts(WholeOnes(more)));
    }
  }

  lemma FlushThinks(c: Config, s: State, pondered: string, concluded: seq<Emission>)
    requires Thinks(c, s, pondered, concluded)
    ensures Thinks(c, FlushThinking(c, s), "", concluded + Thoughts(Paragraphs(pondered)))
  {
    hide Thoughts, ThinkingOut, Trim;
    var last := Partial(pondered);
    NothingPondered();
    ThinkingGrows(s.out, Wrote(Thinking(Trim(last))));
    OneThought(last);
    hide Paragraphs;
    assert Paragraphs(pondered) == WholeOnes(pondered) + [last];
    ThoughtsSplit(WholeOnes(pondered), [last]);
    assert concluded + Thoughts(WholeOnes(pondered)) + Thoughts([last])
        == concluded + (Thoughts(WholeOnes(pondered)) + Thoughts([last]));
    var all := concluded + Thoughts(Paragraphs(pondered));
    assert all + [] == all && concluded + Thoughts(WholeOnes(pondered)) + [] == concluded + Thoughts(WholeOnes(pondered));
    TrimOfNothing();
  }

  lemma TrimOfNothing()
    ensures Trim("") == ""
  {
  }

  lemma NothingPondered()
    ensures Paragraphs("") == [""] && WholeOnes("") == [] && Partial("") == "" && Thoughts([]) == []
  {
  }

  /** Nothing about thinking has changed. */
  ghost predicate SameThinking(s: State, t: State) {
    t.thinkingBuf == s.thinkingBuf && ThinkingOut(t.out) == ThinkingOut(s.out)
  }

  lemma FlushesSameThinking(s: State)
    ensures SameThinking(s, FlushAsNarration(s)) && SameThinking(s, FlushDelta(s)) && SameThinking(s, StartFinal(s))
  {
    ThinkingGrows(s.out, FinalStarted);
    ThinkingGrows(s.out, Wrote(Narration(Trim(Unstreamed(s)))));
    ThinkingGrows(s.out, Wrote(Delta(Unstreamed(s))));
    hide Trim, ThinkingOut;
    assert ThinkingOut(s.out) + [] == ThinkingOut(s.out);
  }

  lemma EventsSameThinking(c: Config, s: State, text: string, next: NextKind, callId: string, tool: string, errored: bool)
    ensures SameThinking(s, FeedText(s, text)) && SameThinking(s, EndText(s, next))
    ensures SameThinking(s, OnRunResult(s))
    ensures SameThinking(s, StartStep(c, s, callId, tool)) && SameThinking(s, FinishStep(s, callId, errored))
  {
    FlushesSameThinking(s);
    FlushesSameThinking(StartFinal(s));
    ThinkingGrows(s.out, Wrote(Delta(text)));
    StepsSameThinking(c, s, callId, tool, errored);
    hide FlushAsNarration, FlushDelta, StartFinal, StartStep, FinishStep, ThinkingOut;
    assert ThinkingOut(s.out) + [] == ThinkingOut(s.out);
  }

  lemma PutStepSameThinking(s: State, step: OpenStep, status: StepStatus)
    ensures SameThinking(s, PutStep(s, step, status))
  {
    ThinkingGrows(s.out, Wrote(Step(StepData(StepName(step.number), status, step.tool))));
    hide ThinkingOut, StepName;
    assert ThinkingOut(s.out) + [] == ThinkingOut(s.out);
  }

  lemma StepsSameThinking(c: Config, s: State, callId: string, tool: string, errored: bool)
    ensures SameThinking(s, StartStep(c, s, callId, tool)) && SameThinking(s, FinishStep(s, callId, errored))
  {
    FlushesSameThinking(s);
    hide FlushAsNarration, HasStep, IndexOf, ThinkingOut, PutStep;
    var s1 := (if s.textBuf != "" then FlushAsNarration(s) else s).(candidate := false);
    var step := OpenStep(callId, s1.counter + 1, tool);
    PutStepSameThinking(Enter(s1, step), step, Start);
    var i := IndexOf(s.open, callId);
    if i < |s.open| {
      PutStepSameThinking(Leave(s, i), s.open[i], if errored then Error else End);
    }
  }

  lemma FinalSameThinking(s: State)
    ensures SameThinking(s, OnFinalResult(s))
  {
    ThinkingGrows(s.out, FinalStarted);
    ThinkingGrows(s.out, Wrote(Narration(Trim(Unstreamed(s)))));
    hide Trim, ThinkingOut;
    assert ThinkingOut(s.out) + [] == ThinkingOut(s.out);
  }

  lemma {:induction false} EndOpenSameThinking(c: Config, s: State, reason: CloseReason, n: nat)
    requires n <= |s.open|
    ensures SameThinking(s, EndOpen(c, s, reason, n))
  {
    if n > 0 {
      EndOpenSameThinking(c, s, reason, n - 1);
      EndOpenOne(c, s, reason, n - 1);
      hide EndOpen, ThinkingOut, ClosingStatus, PutStep;
      var o := s.open[n - 1];
      PutStepSameThinking(EndOpen(c, s, reason, n - 1), o, ClosingStatus(c, reason, o.tool));
    }
  }

  lemma CloseThinks(c: Config, s: State, reason: CloseReason, pondered: string, concluded: seq<Emission>)
    requires Thinks(c, s, pondered, concluded) && !s.closed
    ensures Thinks(c, Close(c, s, reason), "", concluded + Thoughts(Paragraphs(pondered)))
  {
    hide Thoughts, ThinkingOut, Paragraphs, EndOpen, FlushAsNarration, FlushDelta, StartFinal, FlushThinking;
    FlushThinks(c, s.(closed := true), pondered, concluded);
    var s0 := FlushThinking(c, s.(closed := true));
    FlushesSameThinking(s0);
    FlushesSameThinking(StartFinal(s0));
    var s1 := CloseText(s0, reason).(candidate := false);
    EndOpenSameThinking(c, s1, reason, |s1.open|);
  }

  function PonderedBy(event: Event, pondered: string): string {
    if event.ThinkingFed? then pondered + event.content else if event == ThinkingEnded then "" else pondered
  }

  lemma EventThinks(c: Config, s: State, event: Event, pondered: string, concluded: seq<Emission>)
    requires Thinks(c, s, pondered, concluded) && !s.closed
    ensures Thinks(c, Handle(c, s, event), PonderedBy(event, pondered),
                   if event == ThinkingEnded then concluded + Thoughts(Paragraphs(pondered)) else concluded)
  {
    hide Thoughts, ThinkingOut, Paragraphs, OnFinalResult, OnRunResult, FeedText, FeedThinking, EndText, FlushThinking,
      StartStep, FinishStep;
    match event
    case FinalResult => FinalSameThinking(s);
    case RunResult => EventsSameThinking(c, s, "", NoNext, "", "", false);
    case TextFed(content) => EventsSameThinking(c, s, content, NoNext, "", "", false);
    case ThinkingFed(content) => FeedThinks(c, s, pondered, concluded, content);
    case TextEnded(next) => EventsSameThinking(c, s, "", next, "", "", false);
    case ThinkingEnded => FlushThinks(c, s, pondered, concluded);
    case ToolCall(callId, tool) => EventsSameThinking(c, s, "", NoNext, callId, tool, false);
    case ToolResult(callId, errored) => EventsSameThinking(c, s, "", NoNext, callId, "", errored);
    case OtherEvent =>
  }

  lemma BeginThinks(c: Config, s: State, pondered: string, concluded: seq<Emission>)
    requires Thinks(c, s, pondered, concluded)
    ensures Thinks(c, BeginIteration(s), "", concluded + Thoughts(WholeOnes(pondered)))
  {
    ThinkingGrows(s.out, Began);
    NothingPondered();
    hide Thoughts, ThinkingOut, Paragraphs;
    var all := concluded + Thoughts(WholeOnes(pondered));
    assert all + [] == all && ThinkingOut(s.out) + [] == ThinkingOut(s.out);
  }

  lemma PonderedNext(ops: seq<Op>)
    requires ops != []
    ensures var init, last := ops[..|ops| - 1], ops[|ops| - 1];
            && Pondered(ops) == (if Shut(init) || last == Beginning || last.Closing? || last == Event(ThinkingEnded) then ""
                                 else if last.Event? && last.event.ThinkingFed? then Pondered(init) + last.event.content
                                 else Pondered(init))
            && Concluded(ops) == Concluded(init)
                                 + (if Shut(init) then []
                                    else if last == Beginning then Thoughts(WholeOnes(Pondered(init)))
                                    else if last.Closing? || last == Event(ThinkingEnded)
                                    then Thoughts(Paragraphs(Pondered(init)))
                                    else [])
            && (Shut(ops) <==> last.Closing? || (last != Beginning && Shut(init)))
  {
  }

  lemma {:induction false} ShutPondersNothing(ops: seq<Op>)
    ensures Shut(ops) ==> Pondered(ops) == ""
  {
    if ops != [] {
      ShutPondersNothing(ops[..|ops| - 1]);
    }
  }

  /** Over every run, what is shown of the thinking is every paragraph that was complete or ended, trimmed, in order, if
      thinking is shown at all; only the last paragraph of what a new iteration cuts off is lost. */
  lemma {:induction false} ThinkingFollows(c: Config, ops: seq<Op>)
    ensures Thinks(c, RunFrom(c, INITIAL, ops), Pondered(ops), Concluded(ops))
  {
    NothingPondered();
    NoThoughts();
    if ops != [] {
      var init, last := ops[..|ops| - 1], ops[|ops| - 1];
      var s := RunFrom(c, INITIAL, init);
      ThinkingFollows(c, init);
      TextFollows(c, init);
      PonderedNext(ops);
      ShutPondersNothing(init);
      hide Thoughts, ThinkingOut, Paragraphs, Pondered, Concluded, Handle, Close, BeginIteration;
      var was := Concluded(init);
      assert was + [] == was;
      match last
      case Event(event) =>
        if s.closed {
          HandleKeepsClosed(c, s, event);
        } else {
          EventThinks(c, s, event, Pondered(init), was);
        }
      case Closing(reason) =>
        if s.closed {
          ClosedClose(c, s, reason);
        } else {
          CloseThinks(c, s, reason, Pondered(init), was);
        }
      case Beginning =>
        BeginThinks(c, s, Pondered(init), was);
    }
  }

  // ----- What is announced of the steps

  /** The tools that have a public step. */
  predicate Public(c: Config, tool: string) {
    tool != "ask_student" && tool !in c.unmounted && tool !in c.invisible
  }

  /** The table with a step under its call id, in the place of the one that was there or at the end. */
  function Listed(open: seq<OpenStep>, step: OpenStep): seq<OpenStep> {
    if open == [] then [step]
    else if open[0].callId == step.callId then [step] + open[1..]
    else [open[0]] + Listed(open[1..], step)
  }

  function Unlisted(open: seq<OpenStep>, callId: string): seq<OpenStep> {
    if open == [] then []
    else if open[0].callId == callId then open[1..]
    else [open[0]] + Unlisted(open[1..], callId)
  }

  /** The steps open under a call id: one or none. */
  function Holders(open: seq<OpenStep>, callId: string): seq<OpenStep> {
    if open == [] then []
    else if open[0].callId == callId then [open[0]]
    else Holders(open[1..], callId)
  }

  /** How many steps have been announced. */
  function Calls(c: Config, ops: seq<Op>): nat {
    if ops == [] then 0
    else
      var init, last := ops[..|ops| - 1], ops[|ops| - 1];
      Calls(c, init)
      + if last.Event? && last.event.ToolCall? && !Shut(init) && Public(c, last.event.tool) then 1 else 0
  }

  /** The steps that have been announced and not ended. */
  function Running(c: Config, ops: seq<Op>): seq<OpenStep> {
    if ops == [] then []
    else
      var init, last := ops[..|ops| - 1], ops[|ops| - 1];
      if last.Closing? && !Shut(init) then []
      else if last.Event? && last.event.ToolCall? && !Shut(init) && Public(c, last.event.tool)
      then Listed(Running(c, init), OpenStep(last.event.callId, Calls(c, init) + 1, last.event.tool))
      else if last.Event? && last.event.ToolResult? && !Shut(init) then Unlisted(Running(c, init), last.event.callId)
      else Running(c, init)
  }

  function Announce(open: seq<OpenStep>, status: StepStatus): seq<Emission> {
    seq(|open|, i requires 0 <= i < |open| => Step(StepData("s" + ToDigits(open[i].number), status, open[i].tool)))
  }

  /** How a close ends the open steps: a tool that writes has failed, and any other unless all is well or the student
      has interrupted. */
  function Endings(c: Config, open: seq<OpenStep>, reason: CloseReason): seq<Emission> {
    seq(|open|, i requires 0 <= i < |open| =>
      Step(StepData("s" + ToDigits(open[i].number),
                    if open[i].tool in c.writeTools || reason == Errored || reason == Budget then Error else End,
                    open[i].tool)))
  }

  /** What is announced: each public call starts a step with the next number, its result ends that step, with an error
      if it is one, and a close ends all that are open. */
  function Announced(c: Config, ops: seq<Op>): seq<Emission> {
    if ops == [] then []
    else
      var init, last := ops[..|ops| - 1], ops[|ops| - 1];
      Announced(c, init)
      + (if Shut(init) then []
         else if last.Closing? then Endings(c, Running(c, init), last.reason)
         else if last.Event? && last.event.ToolCall? && Public(c, last.event.tool)
         then Announce([OpenStep(last.event.callId, Calls(c, init) + 1, last.event.tool)], Start)
         else if last.Event? && last.event.ToolResult?
         then Announce(Holders(Running(c, init), last.event.callId), if last.event.errored then Error else End)
         else [])
  }

  /** The steps among the outputs. */
  function StepOut(out: seq<Output>): seq<Emission> {
    if out == [] then []
    else
      var last := out[|out| - 1];
      StepOut(out[..|out| - 1]) + if last.Wrote? && last.e.Step? then [last.e] else []
  }

  lemma StepGrows(out: seq<Output>, o: Output)
    ensures StepOut(out + [o]) == StepOut(out) + if o.Wrote? && o.e.Step? then [o.e] else []
  {
    assert (out + [o])[..|out|] == out;
  }

  datatype StepsView = StepsView(open: seq<OpenStep>, counter: nat, announced: seq<Emission>)

  function StepsOf(s: State): StepsView {
    StepsView(s.open, s.counter, StepOut(s.out))
  }

  lemma IndexBehind(open: seq<OpenStep>, callId: string)
    requires open != []
    ensures IndexOf(open, callId) == if open[0].callId == callId then 0 else 1 + IndexOf(open[1..], callId)
  {
  }

  lemma {:induction false} UnlistedIs(open: seq<OpenStep>, callId: string)
    ensures var i := IndexOf(open, callId);
            Unlisted(open, callId) == if i == |open| then open else open[..i] + open[i + 1..]
  {
    hide IndexOf;
    if open != [] {
      IndexBehind(open, callId);
      assert open == [open[0]] + open[1..];
      if open[0].callId != callId {
        UnlistedIs(open[1..], callId);
      }
    }
  }

  lemma {:induction false} HoldersIs(open: seq<OpenStep>, callId: string)
    ensures var i := IndexOf(open, callId); Holders(open, callId) == if i == |open| then [] else [open[i]]
  {
    hide IndexOf;
    if open != [] {
      IndexBehind(open, callId);
      if open[0].callId != callId {
        HoldersIs(open[1..], callId);
      }
    }
  }

  lemma {:induction false} ListedIs(open: seq<OpenStep>, step: OpenStep)
    ensures var i := IndexOf(open, step.callId);
            Listed(open, step) == if i == |open| then open + [step] else open[i := step]
  {
    hide IndexOf;
    if open != [] {
      IndexBehind(open, step.callId);
      assert open == [open[0]] + open[1..];
      if open[0].callId != step.callId {
        ListedIs(open[1..], step);
      }
    }
  }

  lemma FlushesSameSteps(s: State)
    ensures StepsOf(FlushAsNarration(s)) == StepsOf(s) && StepsOf(FlushDelta(s)) == StepsOf(s)
    ensures StepsOf(StartFinal(s)) == StepsOf(s)
  {
    StepGrows(s.out, FinalStarted);
    StepGrows(s.out, Wrote(Narration(Trim(Unstreamed(s)))));
    StepGrows(s.out, Wrote(Delta(Unstreamed(s))));
    hide Trim, StepOut;
    assert StepOut(s.out) + [] == StepOut(s.out);
  }

  lemma EventsSameSteps(c: Config, s: State, text: string, next: NextKind)
    ensures StepsOf(FeedText(s, text)) == StepsOf(s) && StepsOf(EndText(s, next)) == StepsOf(s)
    ensures StepsOf(OnRunResult(s)) == StepsOf(s)
  {
    FlushesSameSteps(s);
    FlushesSameSteps(StartFinal(s));
    StepGrows(s.out, Wrote(Delta(text)));
    hide FlushAsNarration, FlushDelta, StartFinal, StepOut;
    assert StepOut(s.out) + [] == StepOut(s.out);
  }

  lemma FinalSameSteps(s: State)
    ensures StepsOf(OnFinalResult(s)) == StepsOf(s)
  {
    StepGrows(s.out, FinalStarted);
    StepGrows(s.out, Wrote(Narration(Trim(Unstreamed(s)))));
    hide Trim, StepOut;
    assert StepOut(s.out) + [] == StepOut(s.out);
  }

  lemma EmitThinkingSameSteps(c: Config, s: State, text: string)
    ensures StepsOf(EmitThinking(c, s, text)) == StepsOf(s)
  {
    StepGrows(s.out, Wrote(Thinking(Trim(text))));
    hide Trim, StepOut;
    assert StepOut(s.out) + [] == StepOut(s.out);
  }

  lemma {:induction false} DrainSameSteps(c: Config, s: State)
    ensures StepsOf(DrainThinking(c, s)) == StepsOf(s)
    decreases |s.thinkingBuf|
  {
    hide Find, StepOut, EmitThinking;
    var i := Find(s.thinkingBuf, "\n\n");
    if i < |s.thinkingBuf| {
      var s1 := s.(thinkingBuf := s.thinkingBuf[i + 2..]);
      EmitThinkingSameSteps(c, s1, s.thinkingBuf[..i]);
      EmitKeepsBuffer(c, s1, s.thinkingBuf[..i]);
      DrainSameSteps(c, EmitThinking(c, s1, s.thinkingBuf[..i]));
    }
  }

  lemma EmitKeepsBuffer(c: Config, s: State, text: string)
    ensures EmitThinking(c, s, text).thinkingBuf == s.thinkingBuf
  {
  }

  lemma ThinkingSameSteps(c: Config, s: State, text: string)
    ensures StepsOf(FeedThinking(c, s, text)) == StepsOf(s) && StepsOf(FlushThinking(c, s)) == StepsOf(s)
  {
    hide DrainThinking, EmitThinking, StepOut;
    DrainSameSteps(c, s.(thinkingBuf := s.thinkingBuf + text));
    EmitThinkingSameSteps(c, s, s.thinkingBuf);
  }

  lemma PutStepView(s: State, step: OpenStep, status: StepStatus)
    ensures StepsOf(PutStep(s, step, status))
         == StepsView(s.open, s.counter, StepOut(s.out) + Announce([step], status))
  {
    StepGrows(s.out, Wrote(Step(StepData(StepName(step.number), status, step.tool))));
    hide StepOut;
  }

  lemma CallSteps(c: Config, s: State, callId: string, tool: string)
    ensures StepsOf(StartStep(c, s, callId, tool))
         == if !Public(c, tool) then StepsOf(s)
            else (var step := OpenStep(callId, s.counter + 1, tool);
                  StepsView(Listed(s.open, step), s.counter + 1, StepOut(s.out) + Announce([step], Start)))
  {
    FlushesSameSteps(s);
    hide FlushAsNarration, StepOut, PutStep, Listed, IndexOf, Announce;
    var s1 := (if s.textBuf != "" then FlushAsNarration(s) else s).(candidate := false);
    assert StepsOf(s1) == StepsOf(s);
    var step := OpenStep(callId, s1.counter + 1, tool);
    ListedIs(s1.open, step);
    PutStepView(Enter(s1, step), step, Start);
  }

  lemma ResultSteps(s: State, callId: string, errored: bool)
    ensures StepsOf(FinishStep(s, callId, errored))
         == StepsView(Unlisted(s.open, callId), s.counter,
                      StepOut(s.out) + Announce(Holders(s.open, callId), if errored then Error else End))
  {
    hide StepOut, PutStep, IndexOf, Unlisted, Holders;
    var i := IndexOf(s.open, callId);
    UnlistedIs(s.open, callId);
    HoldersIs(s.open, callId);
    if i == |s.open| {
      assert StepOut(s.out) + [] == StepOut(s.out);
    } else {
      PutStepView(Leave(s, i), s.open[i], if errored then Error else End);
    }
  }

  lemma {:induction false} EndOpenSteps(c: Config, s: State, reason: CloseReason, n: nat)
    requires n <= |s.open|
    ensures StepsOf(EndOpen(c, s, reason, n))
         == StepsView(s.open, s.counter, StepOut(s.out) + Endings(c, s.open[..n], reason))
  {
    hide StepOut, PutStep;
    if n == 0 {
      assert StepOut(s.out) + Endings(c, s.open[..0], reason) == StepOut(s.out);
    } else {
      EndOpenSteps(c, s, reason, n - 1);
      EndOpenOne(c, s, reason, n - 1);
      var step := s.open[n - 1];
      hide EndOpen;
      PutStepView(EndOpen(c, s, reason, n - 1), step, ClosingStatus(c, reason, step.tool));
      assert Endings(c, s.open[..n], reason)
          == Endings(c, s.open[..n - 1], reason) + Announce([step], ClosingStatus(c, reason, step.tool));
      assert StepOut(s.out) + Endings(c, s.open[..n - 1], reason) + Announce([step], ClosingStatus(c, reason, step.tool))
          == StepOut(s.out) + Endings(c, s.open[..n], reason);
    }
  }

  lemma CloseSteps(c: Config, s: State, reason: CloseReason)
    requires !s.closed
    ensures StepsOf(Close(c, s, reason)) == StepsView([], s.counter, StepOut(s.out) + Endings(c, s.open, reason))
  {
    hide StepOut, EndOpen, FlushAsNarration, FlushDelta, StartFinal, FlushThinking, Endings;
    ThinkingSameSteps(c, s.(closed := true), "");
    var s0 := FlushThinking(c, s.(closed := true));
    FlushesSameSteps(s0);
    FlushesSameSteps(StartFinal(s0));
    var s1 := CloseText(s0, reason).(candidate := false);
    assert StepsOf(s1) == StepsOf(s);
    EndOpenSteps(c, s1, reason, |s1.open|);
    assert s1.open[..|s1.open|] == s1.open;
  }

  /** What the operations say of the steps. */
  function StepsSaid(c: Config, ops: seq<Op>): StepsView {
    StepsView(Running(c, ops), Calls(c, ops), Announced(c, ops))
  }

  /** What the operations say of the steps when one more event has come. */
  lemma StepsSaidNext(c: Config, ops: seq<Op>, event: Event)
    requires !Shut(ops)
    ensures var was := StepsSaid(c, ops);
            StepsSaid(c, ops + [Event(event)])
            == if event.ToolCall? && Public(c, event.tool) then
                 (var step := OpenStep(event.callId, was.counter + 1, event.tool);
                  StepsView(Listed(was.open, step), was.counter + 1, was.announced + Announce([step], Start)))
               else if event.ToolResult? then
                 StepsView(Unlisted(was.open, event.callId), was.counter,
                           was.announced + Announce(Holders(was.open, event.callId), if event.errored then Error else End))
               else was
  {
    hide Listed, Unlisted, Holders, Announce, Public, Shut;
    var all := ops + [Event(event)];
    assert all[..|all| - 1] == ops;
    assert Announced(c, ops) + [] == Announced(c, ops);
  }

  lemma QuietSteps(c: Config, s: State, event: Event)
    requires !event.ToolCall? && !event.ToolResult?
    ensures StepsOf(Handle(c, s, event)) == StepsOf(s)
  {
    hide StepOut, OnFinalResult, OnRunResult, FeedText, FeedThinking, EndText, FlushThinking, StartStep, FinishStep;
    match event
    case FinalResult => FinalSameSteps(s);
    case RunResult => EventsSameSteps(c, s, "", NoNext);
    case TextFed(content) => EventsSameSteps(c, s, content, NoNext);
    case ThinkingFed(content) => ThinkingSameSteps(c, s, content);
    case TextEnded(next) => EventsSameSteps(c, s, "", next);
    case ThinkingEnded => ThinkingSameSteps(c, s, "");
    case OtherEvent =>
  }

  lemma ToolsHandled(c: Config, s: State, event: Event)
    requires !s.closed
    ensures event.ToolCall? ==> Handle(c, s, event) == StartStep(c, s, event.callId, event.tool)
    ensures event.ToolResult? ==> Handle(c, s, event) == FinishStep(s, event.callId, event.errored)
  {
    hide StartStep, FinishStep;
  }

  lemma EventSteps(c: Config, s: State, ops: seq<Op>, event: Event)
    requires StepsOf(s) == StepsSaid(c, ops) && !s.closed && !Shut(ops)
    ensures StepsOf(Handle(c, s, event)) == StepsSaid(c, ops + [Event(event)])
  {
    hide Handle, StartStep, FinishStep, StepOut, Listed, Unlisted, Holders, Announce, Public, Shut, StepsSaid;
    StepsSaidNext(c, ops, event);
    if event.ToolCall? {
      ToolsHandled(c, s, event);
      CallSteps(c, s, event.callId, event.tool);
    } else if event.ToolResult? {
      ToolsHandled(c, s, event);
      ResultSteps(s, event.callId, event.errored);
    } else {
      QuietSteps(c, s, event);
    }
  }

  lemma OtherSteps(c: Config, s: State, ops: seq<Op>, op: Op)
    requires StepsOf(s) == StepsSaid(c, ops) && (s.closed <==> Shut(ops)) && (op.Event? ==> s.closed)
    ensures StepsOf(Apply(c, s, op)) == StepsSaid(c, ops + [op])
  {
    var all := ops + [op];
    assert all[..|all| - 1] == ops;
    StepGrows(s.out, Began);
    hide StepOut, Handle, Close, Endings, Announce, Listed, Unlisted, Holders, Public, Shut;
    assert Announced(c, ops) + [] == Announced(c, ops);
    match op
    case Event(event) => HandleKeepsClosed(c, s, event);
    case Closing(reason) =>
      if s.closed {
        ClosedClose(c, s, reason);
      } else {
        CloseSteps(c, s, reason);
      }
    case Beginning =>
  }

  /** Over every run, what is announced of the steps is what the operations say: number, tool and status. */
  lemma {:induction false} StepsFollow(c: Config, ops: seq<Op>)
    ensures StepsOf(RunFrom(c, INITIAL, ops)) == StepsSaid(c, ops)
  {
    if ops != [] {
      var init, last := ops[..|ops| - 1], ops[|ops| - 1];
      var s := RunFrom(c, INITIAL, init);
      StepsFollow(c, init);
      TextFollows(c, init);
      hide StepsSaid, Handle, Close, Shut, StepOut;
      assert init + [last] == ops;
      if last.Event? && !s.closed {
        EventSteps(c, s, init, last.event);
      } else {
        OtherSteps(c, s, init, last);
      }
    }
  }
}
