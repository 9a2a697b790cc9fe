/**
 The reflection loop around a handler: best of n, stopping early at the threshold. Handler
 and critic are arbitrary, may answer differently each time, and may throw.
*/
module ReflectionLoops {
  import opened Optional
  import Graphs
  import RetryLimits
  import RunInvariants
  import RunOutcomes
  import Runs

  /** What a handler returns, as far as the engine looks at it. */
  datatype Output = Output(artifacts: Runs.Json, costUsd: real)

  datatype Critique = Critique(score: real, notes: string)

  datatype Feedback = NoFeedback | Feedback(critique: Critique, iteration: nat)

  datatype Options = Options(threshold: real, maxRetries: int, enabledAgents: set<string>)

  datatype Iteration = Iteration(iteration: nat, score: real, accepted: bool, critique: Critique)

  /** A final score of None is minus infinity: nothing was scored. */
  datatype Result = Threw | Done(output: Output, iterations: seq<Iteration>, finalScore: Option<real>, accepted: bool)

  /** The i-th answers of handler and critic; None when they throw. */
  type Handler = (nat, Feedback) -> Option<Output>
  type Critic = (nat, Output) -> Option<Critique>

  function FeedbackAt(iterations: seq<Iteration>, k: nat): Feedback
    requires k <= |iterations|
  {
    if k == 0 then NoFeedback else Feedback(iterations[k-1].critique, k)
  }

  /** Iteration k saw the critique of the one before, and records what the critic said. */
  ghost predicate ScoredAt(handler: Handler, critic: Critic, o: Options,
                           asked: seq<Feedback>, outputs: seq<Output>, iterations: seq<Iteration>, k: nat)
    requires k < |outputs| == |iterations| <= |asked|
  {
    var critique := iterations[k].critique;
    && asked[k] == FeedbackAt(iterations, k)
    && handler(k, asked[k]) == Some(outputs[k])
    && critic(k, outputs[k]) == Some(critique)
    && iterations[k] == Iteration(k, critique.score, critique.score >= o.threshold, critique)
  }

  /** Iteration k missed the threshold and left a retry. */
  ghost predicate WentOn(o: Options, iterations: seq<Iteration>, k: nat)
    requires k < |iterations|
  {
    k < o.maxRetries && !iterations[k].accepted
  }

  /** The iterations that were scored; each but the last one begun went on. */
  ghost predicate Scored(handler: Handler, critic: Critic, o: Options,
                         asked: seq<Feedback>, outputs: seq<Output>, iterations: seq<Iteration>) {
    && |outputs| == |iterations| <= |asked|
    && (forall k: nat :: k < |iterations| ==> ScoredAt(handler, critic, o, asked, outputs, iterations, k))
    && (forall k: nat :: k < |iterations| && k < |asked| - 1 ==> WentOn(o, iterations, k))
  }

  lemma BeginsNext(handler: Handler, critic: Critic, o: Options,
                   asked: seq<Feedback>, outputs: seq<Output>, iterations: seq<Iteration>, feedback: Feedback)
    requires Scored(handler, critic, o, asked, outputs, iterations) && |asked| == |iterations|
    requires iterations != [] ==> WentOn(o, iterations, |iterations| - 1)
    ensures Scored(handler, critic, o, asked + [feedback], outputs, iterations)
  {
    var more := asked + [feedback];
    forall k: nat | k < |iterations|
      ensures ScoredAt(handler, critic, o, more, outputs, iterations, k) && WentOn(o, iterations, k)
    {
      assert ScoredAt(handler, critic, o, asked, outputs, iterations, k);
    }
  }

  lemma ScoresNext(handler: Handler, critic: Critic, o: Options,
                   asked: seq<Feedback>, outputs: seq<Output>, iterations: seq<Iteration>,
                   output: Output, critique: Critique)
    requires Scored(handler, critic, o, asked, outputs, iterations) && |asked| == |iterations| + 1
    requires asked[|iterations|] == FeedbackAt(iterations, |iterations|)
    requires handler(|iterations|, asked[|iterations|]) == Some(output)
    requires critic(|iterations|, output) == Some(critique)
    ensures Scored(handler, critic, o, asked, outputs + [output],
                   iterations + [Iteration(|iterations|, critique.score, critique.score >= o.threshold, critique)])
  {
    var more := iterations + [Iteration(|iterations|, critique.score, critique.score >= o.threshold, critique)];
    forall k: nat | k < |iterations|
      ensures ScoredAt(handler, critic, o, asked, outputs + [output], more, k) && WentOn(o, more, k)
    {
      assert ScoredAt(handler, critic, o, asked, outputs, iterations, k) && WentOn(o, iterations, k);
    }
  }

  /** An iteration was begun whose handler or critic threw. */
  ghost predicate BrokeOff(handler: Handler, critic: Critic, asked: seq<Feedback>, iterations: seq<Iteration>) {
    && |asked| == |iterations| + 1
    && asked[|iterations|] == FeedbackAt(iterations, |iterations|)
    && match handler(|iterations|, asked[|iterations|])
       case None => true
       case Some(output) => critic(|iterations|, output).None?
  }

  ghost predicate RanOut(o: Options, asked: seq<Feedback>, iterations: seq<Iteration>) {
    && |asked| == |iterations| > 0
    && (iterations[|iterations|-1].accepted || |iterations| > o.maxRetries)
  }

  /** Iteration b is the first one with the highest score. */
  ghost predicate FirstBest(iterations: seq<Iteration>, b: nat) {
    && b < |iterations|
    && (forall k :: 0 <= k < b ==> iterations[k].score < iterations[b].score)
    && (forall k :: b < k < |iterations| ==> iterations[k].score <= iterations[b].score)
  }

  ghost predicate IsBest(outputs: seq<Output>, iterations: seq<Iteration>, output: Option<Output>, score: Option<real>) {
    if iterations == [] then output.None? && score.None?
    else exists b: nat :: FirstBest(iterations, b) && b < |outputs|
                          && output == Some(outputs[b]) && score == Some(iterations[b].score)
  }

  lemma BestGrows(outputs: seq<Output>, iterations: seq<Iteration>, output: Option<Output>, score: Option<real>,
                  out: Output, it: Iteration)
    requires IsBest(outputs, iterations, output, score) && |outputs| == |iterations|
    ensures var better := score.None? || it.score > score.value;
      IsBest(outputs + [out], iterations + [it], if better then Some(out) else output,
           if better then Some(it.score) else score)
  {
    var more := iterations + [it];
    if score.None? {
      assert FirstBest(more, 0);
    } else {
      var b: nat :| FirstBest(iterations, b) && b < |outputs|
        && output == Some(outputs[b]) && score == Some(iterations[b].score);
      if it.score > score.value {
        assert FirstBest(more, |iterations|);
      } else {
        assert FirstBest(more, b);
      }
    }
  }

  /** The best score reaches the threshold exactly when the last iteration did. */
  lemma LastDecides(handler: Handler, critic: Critic, o: Options, asked: seq<Feedback>, outputs: seq<Output>,
                    iterations: seq<Iteration>, output: Option<Output>, score: Option<real>)
    requires Scored(handler, critic, o, asked, outputs, iterations) && |asked| == |iterations| > 0
    requires IsBest(outputs, iterations, output, score)
    ensures score.Some? && (score.value >= o.threshold <==> iterations[|iterations|-1].accepted)
  {
    var b: nat :| FirstBest(iterations, b) && b < |outputs|
      && output == Some(outputs[b]) && score == Some(iterations[b].score);
    var n := |iterations|;
    assert ScoredAt(handler, critic, o, asked, outputs, iterations, b);
    assert ScoredAt(handler, critic, o, asked, outputs, iterations, n - 1);
    assert b == n - 1 || WentOn(o, iterations, b);
  }

  /** At most maxRetries + 1 handler calls, and never none. */
  function CallBound(o: Options): nat {
    if o.maxRetries < 0 then 1 else o.maxRetries + 1
  }

  /** One call of the handler on the plain input. */
  function Once(handler: Handler, score: Option<real>, accepted: bool): Result {
    match handler(0, NoFeedback)
    case None => Threw
    case Some(output) => Done(output, [], score, accepted)
  }

  function BestOf(output: Option<Output>, score: Option<real>): Option<Best> {
    if output.Some? && score.Some? then Some(Best(output.value, score.value)) else None
  }

  function NextFeedback(last: Option<Critique>, i: nat): Feedback {
    if i == 0 || last.None? then NoFeedback else Feedback(last.value, i)
  }

  // ---- One reflected call as a function of its handler and critic ----

  datatype Best = Best(output: Output, score: real)

  /** How often the handler is called, and what is returned; None when the call throws. */
  datatype Reflection = Reflection(calls: nat, output: Option<Output>)

  function Better(best: Option<Best>, output: Output, score: real): Option<Best> {
    if best.None? || score > best.value.score then Some(Best(output, score)) else best
  }

  function Returned(best: Option<Best>): Option<Output> {
    if best.None? then None else Some(best.value.output)
  }

  /** The loop from iteration i on. */
  function From(handler: Handler, critic: Critic, o: Options, i: nat, feedback: Feedback, best: Option<Best>): Reflection
    decreases o.maxRetries - i
  {
    match handler(i, feedback)
    case None => Reflection(1, None)
    case Some(output) =>
      match critic(i, output)
      case None => Reflection(1, None)
      case Some(critique) =>
        var now := Better(best, output, critique.score);
        if critique.score >= o.threshold || i >= o.maxRetries then Reflection(1, Returned(now))
        else
          var rest := From(handler, critic, o, i + 1, Feedback(critique, i + 1), now);
          Reflection(1 + rest.calls, rest.output)
  }

  function Reflected(handler: Handler, critic: Critic, o: Options, agent: string): Reflection {
    if agent in o.enabledAgents && o.maxRetries >= 0 then From(handler, critic, o, 0, NoFeedback, None)
    else Reflection(1, handler(0, NoFeedback))
  }

  /** The same reflection with i earlier calls. */
  function After(i: nat, r: Reflection): (t: Reflection)
    ensures i == 0 ==> t == r
  {
    Reflection(i + r.calls, r.output)
  }

  lemma FromUnfold(handler: Handler, critic: Critic, o: Options, i: nat, feedback: Feedback, best: Option<Best>)
    ensures var r := From(handler, critic, o, i, feedback, best);
      match handler(i, feedback)
      case None => r == Reflection(1, None)
      case Some(output) =>
        match critic(i, output)
        case None => r == Reflection(1, None)
        case Some(critique) =>
          var now := Better(best, output, critique.score);
          r == if critique.score >= o.threshold || i >= o.maxRetries then Reflection(1, Returned(now))
               else After(1, From(handler, critic, o, i + 1, Feedback(critique, i + 1), now))
  {
  }

  lemma {:induction false} FromBounded(handler: Handler, critic: Critic, o: Options, i: nat,
                                       feedback: Feedback, best: Option<Best>)
    requires i <= o.maxRetries
    ensures 1 <= From(handler, critic, o, i, feedback, best).calls <= o.maxRetries + 1 - i
    decreases o.maxRetries - i
  {
    hide From;
    FromUnfold(handler, critic, o, i, feedback, best);
    match handler(i, feedback)
    case None =>
    case Some(output) =>
      match critic(i, output)
      case None =>
      case Some(critique) =>
        if critique.score < o.threshold && i < o.maxRetries {
          FromBounded(handler, critic, o, i + 1, Feedback(critique, i + 1), Better(best, output, critique.score));
        }
  }

  lemma ReflectedBounded(handler: Handler, critic: Critic, o: Options, agent: string)
    ensures 1 <= Reflected(handler, critic, o, agent).calls <= CallBound(o)
  {
    hide From;
    if o.maxRetries >= 0 {
      FromBounded(handler, critic, o, 0, NoFeedback, None);
    }
  }

  class ReflectionLoop {
    const opts: Options

    constructor (opts: Options)
      ensures this.opts == opts
    {
      this.opts := opts;
    }

    /** A reflected call retries with the last critique until an iteration reaches the
        threshold or the retries are used up, and throws with the first handler or critic
        that does. It returns the first output with the highest score, and is accepted
        exactly when its last iteration was. An agent that is not enabled gets one
        unscored call; so does one without a single allowed iteration. */
    method Execute(handler: Handler, critic: Critic, agent: string)
      returns (r: Result, asked: seq<Feedback>, outputs: seq<Output>)
      ensures |asked| == Reflected(handler, critic, opts, agent).calls
      ensures Reflected(handler, critic, opts, agent).output == if r.Done? then Some(r.output) else None
      ensures agent !in opts.enabledAgents ==> asked == [NoFeedback] && r == Once(handler, Some(1.0), true)
      ensures agent in opts.enabledAgents && opts.maxRetries < 0 ==>
        asked == [NoFeedback] && r == Once(handler, None, false)
      ensures agent in opts.enabledAgents && opts.maxRetries >= 0 && r.Threw? ==>
        exists iterations :: Scored(handler, critic, opts, asked, outputs, iterations)
                             && BrokeOff(handler, critic, asked, iterations)
      ensures agent in opts.enabledAgents && opts.maxRetries >= 0 && r.Done? ==>
        && Scored(handler, critic, opts, asked, outputs, r.iterations)
        && RanOut(opts, asked, r.iterations)
        && IsBest(outputs, r.iterations, Some(r.output), r.finalScore)
        && r.accepted == r.iterations[|r.iterations|-1].accepted
    {
      hide IsBest, ScoredAt, WentOn, Scored, From;
      outputs := [];
      if agent !in opts.enabledAgents {
        var out := handler(0, NoFeedback);
        return if out.None? then Threw else Done(out.value, [], Some(1.0), true), [NoFeedback], [];
      }
      var iterations: seq<Iteration> := [];
      var bestOutput: Option<Output> := None;
      var bestScore: Option<real> := None;
      var lastCritique: Option<Critique> := None;
      asked := [];
      NothingBest();
      NothingScored(handler, critic, opts);
      var i := 0;
      while i <= opts.maxRetries
        invariant 0 <= i == |asked| == |iterations| && (i == 0 || i <= opts.maxRetries)
        invariant Scored(handler, critic, opts, asked, outputs, iterations)
        invariant i > 0 ==> WentOn(opts, iterations, i - 1)
        invariant lastCritique == if i == 0 then None else Some(iterations[i-1].critique)
        invariant bestOutput.Some? <==> bestScore.Some?
        invariant opts.maxRetries >= 0 ==>
          Reflected(handler, critic, opts, agent)
          == After(i, From(handler, critic, opts, i, NextFeedback(lastCritique, i), BestOf(bestOutput, bestScore)))
        invariant IsBest(outputs, iterations, bestOutput, bestScore)
        decreases opts.maxRetries - i
      {
        FromUnfold(handler, critic, opts, i, NextFeedback(lastCritique, i), BestOf(bestOutput, bestScore));
        var feedback := if i == 0 || lastCritique.None? then NoFeedback else Feedback(lastCritique.value, i);
        BeginsNext(handler, critic, opts, asked, outputs, iterations, feedback);
        asked := asked + [feedback];
        var output := handler(i, feedback);
        if output.None? {
          return Threw, asked, outputs;
        }
        var evaluation := critic(i, output.value);
        if evaluation.None? {
          return Threw, asked, outputs;
        }
        var accepted := evaluation.value.score >= opts.threshold;
        var iteration := Iteration(i, evaluation.value.score, accepted, evaluation.value);
        ScoresNext(handler, critic, opts, asked, outputs, iterations, output.value, evaluation.value);
        BestGrows(outputs, iterations, bestOutput, bestScore, output.value, iteration);
        iterations := iterations + [iteration];
        outputs := outputs + [output.value];
        if bestScore.None? || evaluation.value.score > bestScore.value {
          bestScore, bestOutput := Some(evaluation.value.score), output;
        }
        lastCritique := evaluation;
        if accepted || i >= opts.maxRetries {
          break;
        }
        CarriesOn(opts, iterations);
        i := i + 1;
      }
      if bestOutput.None? {
        SomethingBest(outputs, iterations, bestOutput, bestScore);
        var output := handler(0, NoFeedback);
        return if output.None? then Threw else Done(output.value, iterations, bestScore, false), [NoFeedback], [];
      }
      SomethingBest(outputs, iterations, bestOutput, bestScore);
      LastDecides(handler, critic, opts, asked, outputs, iterations, bestOutput, bestScore);
      r := Done(bestOutput.value, iterations, bestScore, bestScore.Some? && bestScore.value >= opts.threshold);
    }
  }

  lemma NothingBest()
    ensures IsBest([], [], None, None)
  {
  }

  lemma NothingScored(handler: Handler, critic: Critic, o: Options)
    ensures Scored(handler, critic, o, [], [], [])
  {
  }

  lemma CarriesOn(o: Options, iterations: seq<Iteration>)
    requires 0 < |iterations| <= o.maxRetries && !iterations[|iterations|-1].accepted
    ensures WentOn(o, iterations, |iterations| - 1)
  {
  }

  lemma SomethingBest(outputs: seq<Output>, iterations: seq<Iteration>, output: Option<Output>, score: Option<real>)
    requires IsBest(outputs, iterations, output, score)
    ensures output.None? <==> iterations == []
    ensures score.None? <==> iterations == []
  {
  }

  // ---- Reflection inside the engine ----

  /** Attempt a of node v is a reflected call: the engine sees what that call returns. */
  ghost predicate RunsReflected(e: Runs.Env, v: Graphs.Id, o: Options, agent: string,
                                handlers: nat -> Handler, critics: nat -> Critic) {
    forall a: nat :: SettlesAs(e.outcome(v, a), Reflected(handlers(a), critics(a), o, agent))
  }

  predicate SettlesAs(outcome: Runs.Outcome, r: Reflection) {
    match r.output
    case None => outcome.Threw?
    case Some(output) => outcome.Settled? && outcome.value == output.artifacts && outcome.cost == output.costUsd
  }

  function CallsAt(o: Options, agent: string, handlers: nat -> Handler, critics: nat -> Critic): (Graphs.Id, nat) -> nat {
    (n: Graphs.Id, a: nat) => Reflected(handlers(a), critics(a), o, agent).calls
  }

  /** Engine retries around reflection: over any history of start, retry and override, the
      handler of a reflected node runs at most (max_retries + 1) * (maxRetries + 1) times. */
  lemma ReflectedCallsBounded(e: Runs.Env, ops: seq<Runs.Op>, v: Graphs.Id, o: Options, agent: string,
                              handlers: nat -> Handler, critics: nat -> Critic)
    requires e.graph.Valid() && v in e.graph.dependsOn
    ensures RetryLimits.HandlerCalls(Runs.History(e, ops).starts, v, CallsAt(o, agent, handlers, critics))
         <= RunInvariants.AttemptBound(e) * CallBound(o)
  {
    hide Reflected;
    forall a: nat
      ensures CallsAt(o, agent, handlers, critics)(v, a) <= CallBound(o)
    {
      ReflectedBounded(handlers(a), critics(a), o, agent);
    }
    RetryLimits.RetriesCompose(e, ops, v, CallsAt(o, agent, handlers, critics), CallBound(o));
  }

  /** Whenever a node starts, each dependency that is reflected and was not overridden hands it
      the artifacts that the reflection of its latest attempt returned. */
  lemma ReflectedUpstream(e: Runs.Env, ops: seq<Runs.Op>, r: Runs.Start, d: Graphs.Id, o: Options, agent: string,
                          handlers: nat -> Handler, critics: nat -> Critic)
    requires e.graph.Valid() && r in Runs.History(e, ops).starts
    requires r.node in e.graph.dependsOn && d in e.graph.dependsOn[r.node] && d !in r.rows.manual
    requires RunsReflected(e, d, o, agent, handlers, critics)
    ensures d in r.rows.attempts && d in r.upstream
    ensures var a := r.rows.attempts[d];
      Reflected(handlers(a), critics(a), o, agent).output.Some?
      && r.upstream[d] == Reflected(handlers(a), critics(a), o, agent).output.value.artifacts
  {
    hide Reflected;
    RunInvariants.DependencySafety(e, ops, r);
    assert SettlesAs(e.outcome(d, r.rows.attempts[d]),
                     Reflected(handlers(r.rows.attempts[d]), critics(r.rows.attempts[d]), o, agent));
  }

  /** A reflected node completes exactly when some attempt left returns an output that the budget
      accepts, after attempts whose reflection threw. */
  lemma ReflectedSucceeds(e: Runs.Env, v: Graphs.Id, made: nat, o: Options, agent: string,
                          handlers: nat -> Handler, critics: nat -> Critic)
    requires RunsReflected(e, v, o, agent, handlers, critics)
    ensures RunOutcomes.WillSucceed(e, v, made) <==>
      && (v in e.graph.paid ==> e.token)
      && exists a: nat :: ReturnsAt(e, v, made, o, agent, handlers, critics, a)
  {
    hide Reflected;
    forall a: nat
      ensures RunOutcomes.Reaches(e, v, made, a) <==> ReturnsAt(e, v, made, o, agent, handlers, critics, a)
    {
      assert forall b: nat :: SettlesAs(e.outcome(v, b), Reflected(handlers(b), critics(b), o, agent));
    }
  }

  ghost predicate ReturnsAt(e: Runs.Env, v: Graphs.Id, made: nat, o: Options, agent: string,
                            handlers: nat -> Handler, critics: nat -> Critic, a: nat) {
    && made < a <= e.maxRetries + 1
    && Reflected(handlers(a), critics(a), o, agent).output.Some?
    && Runs.Accepted(e, e.outcome(v, a))
    && forall b: nat :: made < b < a ==> Reflected(handlers(b), critics(b), o, agent).output.None?
  }
}
