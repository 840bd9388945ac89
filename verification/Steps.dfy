/** The emission router (app/steps.py), with its buffers and its table of open steps. */
module Steps {
  import opened Text
  import opened Emissions
  import opened RouterRules

  class EmissionRouter {
    const config: Config
    var textBuf: string
    var narrationStreamedLen: nat
    var thinkingBuf: string
    var finalCandidate: bool
    var finalAnswerStarted: bool
    var closed: bool
    var counter: nat
    var open: seq<OpenStep>
    var out: seq<Output>
    ghost var raw: seq<Flush>
    ghost var fed: string
    ghost var lost: set<nat>

    ghost function View(): State
      reads this
    {
      State(textBuf, narrationStreamedLen, thinkingBuf, finalCandidate, finalAnswerStarted, closed, counter, open, out,
            raw, fed, lost)
    }

    constructor (config: Config)
      ensures this.config == config && View() == INITIAL
    {
      this.config := config;
      textBuf, narrationStreamedLen, thinkingBuf := "", 0, "";
      finalCandidate, finalAnswerStarted, closed := false, false, false;
      counter, open, out := 0, [], [];
      raw, fed, lost := [], "", {};
    }

    method Handle(event: Event)
      modifies this
      ensures View() == RouterRules.Handle(config, old(View()), event)
    {
      hide Trim, IndexOf, Find, DrainThinking;
      if closed {
        return;
      }
      match event
      case FinalResult => HandleFinalResult();
      case RunResult => HandleRunResult();
      case TextFed(content) => FeedText(content);
      case ThinkingFed(content) => FeedThinking(content);
      case TextEnded(next) => EndTextPart(next);
      case ThinkingEnded => FlushThinking();
      case ToolCall(callId, tool) => StartStep(callId, tool);
      case ToolResult(callId, errored) => FinishStep(callId, errored);
      case OtherEvent =>
    }

    method BeginIteration()
      modifies this
      ensures View() == RouterRules.BeginIteration(old(View()))
    {
      raw := if textBuf == "" then raw else raw + [Discarded(Unstreamed(View()))];
      closed := false;
      finalAnswerStarted := false;
      finalCandidate := false;
      textBuf := "";
      thinkingBuf := "";
      narrationStreamedLen := 0;
      out := out + [Began];
    }

    method Close(reason: CloseReason)
      modifies this
      ensures View() == RouterRules.Close(config, old(View()), reason)
    {
      hide CloseText, RouterRules.FlushThinking, EndOpen;
      if closed {
        return;
      }
      closed := true;
      FlushThinking();
      FlushBuffer(reason);
      finalCandidate := false;
      EndOpenSteps(reason);
    }

    /** The part of `Close` that flushes the text. */
    method FlushBuffer(reason: CloseReason)
      modifies this
      ensures View() == CloseText(old(View()), reason)
    {
      hide Trim;
      if textBuf != "" {
        if finalAnswerStarted || (reason == Complete && finalCandidate) {
          var unstreamed := UnstreamedText();
          if !finalAnswerStarted && unstreamed != "" {
            StartFinalAnswer();
          }
          FlushTextDelta();
        } else {
          FlushTextAsNarration();
        }
      }
    }

    /** The part of `Close` that ends the open steps. */
    method EndOpenSteps(reason: CloseReason)
      modifies this
      ensures View() == EndOpen(config, old(View()), reason, |old(open)|).(open := [])
    {
      hide EndOpen, ClosingStatus;
      ghost var s := View();
      EndOpenNone(config, s, reason);
      for i := 0 to |open|
        invariant open == s.open && View() == EndOpen(config, s, reason, i)
      {
        EndOpenOne(config, s, reason, i);
        var step := open[i];
        EmitStep(step, ClosingStatus(config, reason, step.tool));
      }
      open := [];
    }

    // -- text and thinking

    method HandleFinalResult()
      modifies this
      ensures View() == OnFinalResult(old(View()))
    {
      hide Trim;
      if finalAnswerStarted {
        return;
      }
      if textBuf != "" {
        if narrationStreamedLen != 0 {
          var text := UnstreamedText();
          ClearTextBuffer();
          if text != "" {
            EmitNarration(text);
          }
          finalCandidate := true;
          return;
        }
        finalCandidate := true;
        return;
      }
      StartFinalAnswer();
    }

    method HandleRunResult()
      modifies this
      ensures View() == OnRunResult(old(View()))
    {
      if finalAnswerStarted || textBuf == "" {
        return;
      }
      var text := UnstreamedText();
      if text == "" {
        ClearTextBuffer();
        return;
      }
      StartFinalAnswer();
      FlushTextDelta();
    }

    method StartFinalAnswer()
      modifies this
      ensures View() == StartFinal(old(View()))
    {
      if finalAnswerStarted {
        return;
      }
      finalAnswerStarted := true;
      finalCandidate := false;
      out := out + [FinalStarted];
    }

    method FeedText(text: string)
      modifies this
      ensures View() == RouterRules.FeedText(old(View()), text)
    {
      if text == "" {
        return;
      }
      fed := fed + text;
      if finalAnswerStarted {
        raw := raw + [AsDelta(text)];
        out := out + [Wrote(Delta(text))];
        return;
      }
      textBuf := textBuf + text;
    }

    method EndTextPart(next: NextKind)
      modifies this
      ensures View() == EndText(old(View()), next)
    {
      hide Trim;
      if textBuf == "" {
        return;
      }
      if next == TextNext {
        return;
      }
      if finalAnswerStarted || (finalCandidate && (next == NoNext || next == ThinkingNext)) {
        var text := UnstreamedText();
        if !finalAnswerStarted && text != "" {
          StartFinalAnswer();
        }
        FlushTextDelta();
      } else {
        FlushTextAsNarration();
        finalCandidate := false;
      }
    }

    method FlushTextDelta()
      modifies this
      ensures View() == FlushDelta(old(View()))
    {
      if textBuf == "" {
        return;
      }
      var text := UnstreamedText();
      ClearTextBuffer();
      if text != "" {
        raw := raw + [AsDelta(text)];
        out := out + [Wrote(Delta(text))];
      }
    }

    method UnstreamedText() returns (text: string)
      ensures text == Unstreamed(View())
    {
      text := if narrationStreamedLen <= |textBuf| then textBuf[narrationStreamedLen..] else "";
    }

    method ClearTextBuffer()
      modifies this
      ensures View() == ClearText(old(View()))
    {
      textBuf := "";
      narrationStreamedLen := 0;
      finalCandidate := false;
    }

    method FlushTextAsNarration()
      modifies this
      ensures View() == FlushAsNarration(old(View()))
    {
      hide Trim;
      var text := UnstreamedText();
      if text != "" {
        EmitNarration(text);
        narrationStreamedLen := |textBuf|;
      }
      textBuf := "";
      narrationStreamedLen := 0;
    }

    method FeedThinking(text: string)
      modifies this
      ensures View() == RouterRules.FeedThinking(config, old(View()), text)
    {
      hide Trim, Find;
      if text == "" {
        return;
      }
      thinkingBuf := thinkingBuf + text;
      ghost var s := View();
      var i := Find(thinkingBuf, "\n\n");
      while i < |thinkingBuf|
        invariant i == Find(thinkingBuf, "\n\n")
        invariant DrainThinking(config, View()) == DrainThinking(config, s)
        decreases |thinkingBuf|
      {
        var paragraph := thinkingBuf[..i];
        thinkingBuf := thinkingBuf[i + 2..];
        EmitThinking(paragraph);
        i := Find(thinkingBuf, "\n\n");
      }
    }

    method FlushThinking()
      modifies this
      ensures View() == RouterRules.FlushThinking(config, old(View()))
    {
      hide Trim;
      if thinkingBuf != "" {
        EmitThinking(thinkingBuf);
        thinkingBuf := "";
      }
    }

    method EmitThinking(text: string)
      modifies this
      ensures View() == RouterRules.EmitThinking(config, old(View()), text)
    {
      hide Trim;
      var line := Trim(text);
      if line == "" || !config.emitThinking {
        return;
      }
      out := out + [Wrote(Thinking(line))];
    }

    method EmitNarration(text: string)
      modifies this
      ensures View() == RouterRules.EmitNarration(old(View()), text)
    {
      hide Trim;
      raw := raw + [AsNarration(text)];
      var line := Trim(text);
      if line == "" {
        return;
      }
      out := out + [Wrote(Narration(line))];
    }

    // -- steps

    method StartStep(callId: string, tool: string)
      modifies this
      ensures View() == RouterRules.StartStep(config, old(View()), callId, tool)
    {
      hide Trim, Enter, FlushAsNarration;
      if textBuf != "" {
        FlushTextAsNarration();
      }
      finalCandidate := false;
      if tool == EXCLUDED_TOOL {
        return;
      }
      if tool in config.unmounted {
        return;
      }
      if tool in config.invisible {
        return;
      }
      var step := OpenStep(callId, counter + 1, tool);
      EnterStep(step);
      EmitStep(step, Start);
    }

    /** Counts the step and puts it into the table, in place of an open one with the same call id. */
    method EnterStep(step: OpenStep)
      modifies this
      ensures View() == Enter(old(View()), step)
    {
      hide IndexOf;
      counter := counter + 1;
      var i := IndexOf(open, step.callId);
      if i == |open| {
        open := open + [step];
      } else {
        lost := lost + {open[i].number};
        open := open[i := step];
      }
    }

    method FinishStep(callId: string, errored: bool)
      modifies this
      ensures View() == RouterRules.FinishStep(old(View()), callId, errored)
    {
      hide IndexOf;
      var i := IndexOf(open, callId);
      if i == |open| {
        return;
      }
      var step := open[i];
      open := open[..i] + open[i + 1..];
      EmitStep(step, if errored then Error else End);
    }

    method EmitStep(step: OpenStep, status: StepStatus)
      modifies this
      ensures View() == PutStep(old(View()), step, status)
    {
      out := out + [Wrote(Step(StepData(StepName(step.number), status, step.tool)))];
    }
  }
}
