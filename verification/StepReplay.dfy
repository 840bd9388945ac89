/** What the router starts, the record shows ended: app/steps.py composed with app/records.py. */
module StepReplay {
  import opened Emissions
  import Records
  import R = RouterRules

  /** The emissions among the router's outputs. */
  function Written(out: seq<R.Output>): seq<Emission> {
    if out == [] then []
    else Written(out[..|out| - 1]) + (if out[|out| - 1].Wrote? then [out[|out| - 1].e] else [])
  }

  /** The last payload of a step depends on the step emissions alone. */
  lemma {:induction false} LastStepOfSteps(es: seq<Emission>, id: string)
    ensures Records.LastStep(es, id) == Records.LastStep(Records.StepsIn(es), id)
  {
    if es != [] {
      var init, last := es[..|es| - 1], es[|es| - 1];
      LastStepOfSteps(init, id);
      var steps := Records.StepsIn(init);
      assert Records.StepsIn(es) == if last.Step? then steps + [last] else steps;
      assert (steps + [last])[..|steps|] == steps;
    }
  }

  lemma {:induction false} DroppingCardsKeepsSteps(es: seq<Emission>)
    ensures Records.StepsIn(Records.Kept(es)) == Records.StepsIn(es)
  {
    if es != [] {
      var init, last := es[..|es| - 1], es[|es| - 1];
      DroppingCardsKeepsSteps(init);
      var kept := Records.Kept(init);
      assert (kept + [last])[..|kept|] == kept;
      assert Records.Kept(es) == kept + [last] || (last.Viz? && Records.Kept(es) == kept);
    }
  }

  lemma {:induction false} LastStepIsThere(es: seq<Emission>, id: string)
    requires Records.LastStep(es, id).Step?
    ensures Records.LastStep(es, id) in es && Records.StepOf(Records.LastStep(es, id), id)
  {
    if es != [] && !Records.StepOf(es[|es| - 1], id) {
      LastStepIsThere(es[..|es| - 1], id);
    }
  }

  lemma {:induction false} UnstartedIsNotEnded(out: seq<R.Output>, n: nat)
    requires R.EndsFollow(out) && R.CountStarts(out, n) == 0
    ensures R.CountEnds(out, n) == 0
  {
    if out != [] {
      UnstartedIsNotEnded(out[..|out| - 1], n);
    }
  }

  /** A step started once and ended once, and ended after it was started, has its end as its last payload. */
  lemma {:induction false} LastIsEnd(out: seq<R.Output>, n: nat)
    requires R.EndsFollow(out) && R.CountStarts(out, n) == 1 && R.CountEnds(out, n) == 1
    ensures var last := Records.LastStep(Written(out), R.StepName(n));
            last.Step? && last.data.status != Start
  {
    hide R.StepName;
    var init, o := out[..|out| - 1], out[|out| - 1];
    var before := Written(init);
    assert o.Wrote? ==> (before + [o.e])[..|before|] == before;
    if R.Starts(o, n) {
      UnstartedIsNotEnded(init, n);
    } else if !R.Ends(o, n) {
      LastIsEnd(init, n);
      assert o.Wrote? ==> !Records.StepOf(o.e, R.StepName(n));
      assert Written(out) == if o.Wrote? then before + [o.e] else before;
    }
  }

  /**
   * Whatever log the emissions end up in, as long as its steps are the router's: after a close, and with distinct
   * ids for calls open at the same time, every step that was started has one segment, and it shows the end.
   */
  lemma EveryStepShowsItsEnd(c: R.Config, ops: seq<R.Op>, es: seq<Emission>, n: nat) returns (i: nat)
    requires var s := R.RunFrom(c, R.INITIAL, ops);
             && s.closed && R.DistinctCalls(c, ops) && 1 <= n <= s.counter
             && Records.StepsIn(es) == Records.StepsIn(Written(s.out))
    ensures var shown := Records.StepsIn(Records.SegmentsOf(es));
            && i < |shown| && Records.StepOf(shown[i], R.StepName(n)) && shown[i].data.status != Start
            && forall j | 0 <= j < |shown| && Records.StepOf(shown[j], R.StepName(n)) :: j == i
  {
    hide *;
    var s := R.RunFrom(c, R.INITIAL, ops);
    var id := R.StepName(n);
    var kept := Records.Kept(es);
    StartedAndEnded(c, ops, n);
    LastIsEnd(s.out, n);
    LastStepOfSteps(Written(s.out), id);
    DroppingCardsKeepsSteps(es);
    LastStepOfSteps(kept, id);
    Records.StepSegments(es);
    i := StepHasPlace(kept, id);
  }

  lemma StartedAndEnded(c: R.Config, ops: seq<R.Op>, n: nat)
    requires var s := R.RunFrom(c, R.INITIAL, ops); s.closed && R.DistinctCalls(c, ops) && 1 <= n <= s.counter
    ensures var s := R.RunFrom(c, R.INITIAL, ops);
            R.EndsFollow(s.out) && R.CountStarts(s.out, n) == 1 && R.CountEnds(s.out, n) == 1
  {
    hide R.RunFrom, R.DistinctCalls, R.CountStarts, R.CountEnds, R.EndsFollow, R.OpenInv;
    R.RunKeepsSteps(c, ops);
    R.AllStepsEndIff(c, ops);
  }

  /** The place of a step among the last payloads, in the order of first emissions. */
  lemma StepHasPlace(es: seq<Emission>, id: string) returns (i: nat)
    requires Records.LastStep(es, id).Step?
    requires forall i, j | 0 <= i < j < |Records.FirstSteps(es)| :: Records.FirstSteps(es)[i] != Records.FirstSteps(es)[j]
    ensures var shown := Records.LastSteps(Records.FirstSteps(es), es);
            && i < |shown| && shown[i] == Records.LastStep(es, id) && Records.StepOf(shown[i], id)
            && forall j | 0 <= j < |shown| && Records.StepOf(shown[j], id) :: j == i
  {
    hide Records.FirstSteps, Records.LastStep;
    var ids := Records.FirstSteps(es);
    LastStepIsThere(es, id);
    Records.FirstStepsDistinct(es);
    assert exists b | b in es :: Records.StepOf(b, id) by {
      assert Records.LastStep(es, id) in es;
    }
    assert id in ids;
    i :| 0 <= i < |ids| && ids[i] == id;
    forall j | 0 <= j < |ids| && Records.StepOf(Records.LastStep(es, ids[j]), id) ensures j == i {
      LastStepIsThere(es, ids[j]);
    }
  }
}
