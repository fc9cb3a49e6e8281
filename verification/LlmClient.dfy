/** The learned "no temperature" set of an LLM client and its one retry (packages/llm-core/llm_core/llm_client.py).  The
    same code stands in `call` and `call_with_messages` of both clients.  What the provider answers to its n-th request
    is given by an arbitrary function. */
module LlmClient {
  import opened Common

  datatype Request = Request(model: string, temperature: Option<real>)

  /** The provider's answer; `TemperatureError` is an error that `_is_temperature_error` recognises. */
  datatype Reply = Answer | TemperatureError | OtherError

  datatype CallArgs = CallArgs(model: Option<string>, temperature: Option<real>)

  datatype State = State(noTemperature: set<string>, sent: seq<Request>)

  datatype Defaults = Defaults(model: string, temperature: real)

  function ModelOf(d: Defaults, c: CallArgs): string {
    if c.model.Some? && c.model.value != "" then c.model.value else d.model
  }

  /** One call: what the caller gets (an answer or the error raised) and the new state. */
  function Step(d: Defaults, reply: nat -> Reply, st: State, c: CallArgs): (Reply, State) {
    var model := ModelOf(d, c);
    if model in st.noTemperature then (reply(|st.sent|), st.(sent := st.sent + [Request(model, None)]))
    else
      var first := st.sent + [Request(model, Some(c.temperature.GetOr(d.temperature)))];
      if reply(|st.sent|) == TemperatureError then
        (reply(|first|), State(st.noTemperature + {model}, first + [Request(model, None)]))
      else (reply(|st.sent|), st.(sent := first))
  }

  class LLMClient {
    const defaults: Defaults
    const reply: nat -> Reply
    var noTemperature: set<string>
    var sent: seq<Request>

    constructor (defaults: Defaults, reply: nat -> Reply, preset: set<string>)
      ensures this.defaults == defaults && this.reply == reply && St() == State(preset, [])
    {
      this.defaults := defaults;
      this.reply := reply;
      noTemperature := preset;
      sent := [];
    }

    function St(): State
      reads this
    {
      State(noTemperature, sent)
    }

    method Send(request: Request) returns (answer: Reply)
      modifies this`sent
      ensures answer == reply(|old(sent)|) && sent == old(sent) + [request]
    {
      answer := reply(|sent|);
      sent := sent + [request];
    }

    method Call(model: Option<string>, temperature: Option<real>) returns (outcome: Reply)
      modifies this
      ensures (outcome, St()) == Step(defaults, reply, old(St()), CallArgs(model, temperature))
    {
      var modelName := if model.Some? && model.value != "" then model.value else defaults.model;
      var request := Request(modelName, None);
      if modelName !in noTemperature {
        request := request.(temperature := Some(temperature.GetOr(defaults.temperature)));
      }
      outcome := Send(request);
      if request.temperature.Some? && outcome.TemperatureError? {
        noTemperature := noTemperature + {modelName};
        request := request.(temperature := None);
        outcome := Send(request);
      }
    }
  }

  /** What one call sends: one request, or a second one without temperature after the first was turned down for its own;
      both to the model the caller names, if any, and the first with the caller's temperature, if any, unless the model
      is known to take none.  The caller gets the last answer. */
  lemma CallSends(d: Defaults, reply: nat -> Reply, st: State, c: CallArgs)
    ensures var (outcome, after) := Step(d, reply, st, c);
            var model := if c.model.None? || c.model == Some("") then d.model else c.model.value;
            var temperature := if c.temperature.None? then d.temperature else c.temperature.value;
            var first := Request(model, if model in st.noTemperature then None else Some(temperature));
            && after.sent == st.sent + [first]
                             + (if first.temperature.Some? && reply(|st.sent|) == TemperatureError then
                                  [Request(model, None)] else [])
            && outcome == reply(|after.sent| - 1)
            && after.noTemperature == st.noTemperature + (if |after.sent| == |st.sent| + 2 then {model} else {})
  {}

  // ---- A whole run

  function Run(d: Defaults, reply: nat -> Reply, st: State, calls: seq<CallArgs>): State {
    if calls == [] then st
    else Step(d, reply, Run(d, reply, st, calls[..|calls| - 1]), calls[|calls| - 1]).1
  }

  /** A request that carried a temperature and was turned down for it. */
  predicate RejectedForTemperature(reply: nat -> Reply, sent: seq<Request>, i: nat)
    requires i < |sent|
  {
    sent[i].temperature.Some? && reply(i) == TemperatureError
  }

  /** Over any run: requests sent are exactly the calls plus the models newly learned. */
  lemma {:induction false} RequestsAreAmortised(d: Defaults, reply: nat -> Reply, st: State, calls: seq<CallArgs>)
    ensures var after := Run(d, reply, st, calls);
            && st.noTemperature <= after.noTemperature && st.sent <= after.sent
            && |after.sent| == |st.sent| + |calls| + |after.noTemperature - st.noTemperature|
  {
    if calls != [] {
      var init, c := calls[..|calls| - 1], calls[|calls| - 1];
      RequestsAreAmortised(d, reply, st, init);
      var before, after := Run(d, reply, st, init), Run(d, reply, st, calls);
      var model := ModelOf(d, c);
      if model !in before.noTemperature && reply(|before.sent|) == TemperatureError {
        assert after.noTemperature - st.noTemperature == (before.noTemperature - st.noTemperature) + {model};
      } else {
        assert after.noTemperature == before.noTemperature;
      }
    }
  }

  /** A model is newly learned because a request of this run, carrying a temperature for it, was turned down. */
  ghost predicate LearnedHere(reply: nat -> Reply, from: nat, after: State, m: string) {
    exists i :: from <= i < |after.sent| && after.sent[i].model == m && RejectedForTemperature(reply, after.sent, i)
  }

  /** Nothing is learned without a rejection. */
  lemma {:induction false} LearnedByRejection(d: Defaults, reply: nat -> Reply, st: State, calls: seq<CallArgs>,
                                              m: string)
    requires m in Run(d, reply, st, calls).noTemperature && m !in st.noTemperature
    ensures LearnedHere(reply, |st.sent|, Run(d, reply, st, calls), m)
  {
    if calls != [] {
      var init, c := calls[..|calls| - 1], calls[|calls| - 1];
      var before, after := Run(d, reply, st, init), Run(d, reply, st, calls);
      RequestsAreAmortised(d, reply, st, init);
      if m in before.noTemperature {
        LearnedByRejection(d, reply, st, init, m);
        var i :| |st.sent| <= i < |before.sent| && before.sent[i].model == m
            && RejectedForTemperature(reply, before.sent, i);
        assert after.sent[i] == before.sent[i];
      } else {
        assert RejectedForTemperature(reply, after.sent, |before.sent|);
      }
    }
  }

  /** What holds of a client at any time: models turned down are remembered, and nothing is sent with a temperature to a
      model that was preset or turned down before. */
  ghost predicate Learned(reply: nat -> Reply, preset: set<string>, st: State) {
    && preset <= st.noTemperature
    && (forall i | 0 <= i < |st.sent| && RejectedForTemperature(reply, st.sent, i) ::
          st.sent[i].model in st.noTemperature)
    && (forall i | 0 <= i < |st.sent| && st.sent[i].model in preset :: st.sent[i].temperature.None?)
    && (forall i, j | 0 <= i < j < |st.sent| && RejectedForTemperature(reply, st.sent, i)
                       && st.sent[j].model == st.sent[i].model ::
          st.sent[j].temperature.None?)
  }

  lemma SendKeepsLearned(reply: nat -> Reply, preset: set<string>, st: State, r: Request, learned: set<string>)
    requires Learned(reply, preset, st)
    requires r.temperature.Some? ==> r.model !in st.noTemperature
    requires st.noTemperature <= learned
    requires r.temperature.Some? && reply(|st.sent|) == TemperatureError ==> r.model in learned
    ensures Learned(reply, preset, State(learned, st.sent + [r]))
  {
    var sent := st.sent + [r];
    forall i | 0 <= i < |st.sent| ensures sent[i] == st.sent[i] {}
    forall i | 0 <= i < |st.sent|
      ensures RejectedForTemperature(reply, sent, i) == RejectedForTemperature(reply, st.sent, i) {}
  }

  /** Once a model is turned down for its temperature, no later request of the run carries one to it. */
  lemma {:induction false} NeverAskedAgain(d: Defaults, reply: nat -> Reply, preset: set<string>, calls: seq<CallArgs>)
    ensures Learned(reply, preset, Run(d, reply, State(preset, []), calls))
  {
    if calls != [] {
      var init, c := calls[..|calls| - 1], calls[|calls| - 1];
      NeverAskedAgain(d, reply, preset, init);
      var before := Run(d, reply, State(preset, []), init);
      var model := ModelOf(d, c);
      if model in before.noTemperature {
        SendKeepsLearned(reply, preset, before, Request(model, None), before.noTemperature);
      } else {
        var first := Request(model, Some(c.temperature.GetOr(d.temperature)));
        if reply(|before.sent|) == TemperatureError {
          var mid := State(before.noTemperature + {model}, before.sent + [first]);
          SendKeepsLearned(reply, preset, before, first, mid.noTemperature);
          SendKeepsLearned(reply, preset, mid, Request(model, None), mid.noTemperature);
        } else {
          SendKeepsLearned(reply, preset, before, first, before.noTemperature);
        }
      }
    }
  }

  /** The caller sees a temperature error only from a request that carried no temperature. */
  lemma TemperatureErrorsAreRetried(d: Defaults, reply: nat -> Reply, st: State, c: CallArgs)
    ensures var (outcome, after) := Step(d, reply, st, c);
            after.sent != [] && (outcome == TemperatureError ==> after.sent[|after.sent| - 1].temperature.None?)
  {}
}
