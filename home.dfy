/**
 * The PageRank demo page (app/components/home.tsx): the three-step demo
 * walked forwards and backwards in a cycle, the reset, the guard of the
 * chat input, and the acceptance of a graph carried by the assistant's
 * reply.
 */
module Home {
  import opened Wrappers
  import opened JsText
  import opened Json
  import opened PageRankProtocol

  /** One demo step: its status line and its graph snapshot. */
  datatype DemoStep = DemoStep(msg: string, data: Json)

  datatype ChatBubble = ChatBubble(fromUser: bool, content: string)

  /** The page state the step buttons, the reset and the reply handler write. */
  datatype PageState = PageState(currentStep: nat, statusText: string, graph: Json, chat: seq<ChatBubble>)

  const ResetNotice: string := "🔄 已重置到初始状态。"

  /** The step after `step`, wrapping from the last step to the first. */
  function NextIndex(step: nat, count: nat): (r: nat)
    requires count > 0
    ensures r < count
    ensures step < count - 1 ==> r == step + 1
    ensures step == count - 1 ==> r == 0
  {
    (step + 1) % count
  }

  /** The step before `step`, wrapping from the first step to the last. */
  function PrevIndex(step: nat, count: nat): (r: nat)
    requires count > 0 && step < count
    ensures r < count
    ensures step == 0 ==> r == count - 1
    ensures step > 0 ==> r == step - 1
  {
    if step == 0 then count - 1 else step - 1
  }

  /** `handleNextStep`: the next step, its status line and its graph. */
  function NextStep(s: PageState, steps: seq<DemoStep>): (r: PageState)
    requires |steps| > 0
    ensures r.currentStep < |steps| && r.chat == s.chat
    ensures r.statusText == steps[r.currentStep].msg && r.graph == steps[r.currentStep].data
  {
    var i := NextIndex(s.currentStep, |steps|);
    s.(currentStep := i, statusText := steps[i].msg, graph := steps[i].data)
  }

  /** `handlePrevStep`: the previous step, its status line and its graph. */
  function PrevStep(s: PageState, steps: seq<DemoStep>): (r: PageState)
    requires |steps| > 0 && s.currentStep < |steps|
    ensures r.currentStep < |steps| && r.chat == s.chat
    ensures r.statusText == steps[r.currentStep].msg && r.graph == steps[r.currentStep].data
  {
    var i := PrevIndex(s.currentStep, |steps|);
    s.(currentStep := i, statusText := steps[i].msg, graph := steps[i].data)
  }

  /** A snapshot with the protocol's algorithm and default parameters written over it. */
  function WithDefaults(data: Json): (r: Json)
    ensures r.Obj?
    ensures Prop(r, "algo") == Str(ALGO_PAGERANK)
    ensures Prop(r, "maxIterations") == Num(DEFAULT_MAX_ITERATIONS as real)
    ensures Prop(r, "dampingFactor") == Num(DEFAULT_DAMPING_FACTOR)
    ensures Prop(r, "threshold") == Num(DEFAULT_THRESHOLD)
  {
    var a := WithField(data, "algo", Str(ALGO_PAGERANK));
    var b := WithField(a, "maxIterations", Num(DEFAULT_MAX_ITERATIONS as real));
    var c := WithField(b, "dampingFactor", Num(DEFAULT_DAMPING_FACTOR));
    WithField(c, "threshold", Num(DEFAULT_THRESHOLD))
  }

  /** `handleReset`: the first step with the default parameters, and one notice in the chat. */
  function Reset(s: PageState, steps: seq<DemoStep>): (r: PageState)
    requires |steps| > 0
    ensures r.currentStep == 0 && r.statusText == steps[0].msg
    ensures r.graph == WithDefaults(steps[0].data)
    ensures r.chat == s.chat + [ChatBubble(false, ResetNotice)]
  {
    PageState(0, steps[0].msg, WithDefaults(steps[0].data), s.chat + [ChatBubble(false, ResetNotice)])
  }

  /** The page shows the step it is on. */
  predicate ShowsStep(s: PageState, steps: seq<DemoStep>) {
    s.currentStep < |steps| && s.statusText == steps[s.currentStep].msg && s.graph == steps[s.currentStep].data
  }

  /** `prev` undoes `next`. */
  lemma PrevUndoesNext(s: PageState, steps: seq<DemoStep>)
    requires |steps| > 0 && ShowsStep(s, steps)
    ensures PrevStep(NextStep(s, steps), steps) == s
  {
  }

  /** `next` undoes `prev`. */
  lemma NextUndoesPrev(s: PageState, steps: seq<DemoStep>)
    requires |steps| > 0 && ShowsStep(s, steps)
    ensures NextStep(PrevStep(s, steps), steps) == s
  {
  }

  /** `next` pressed `k` times. */
  function NextTimes(s: PageState, steps: seq<DemoStep>, k: nat): (r: PageState)
    requires |steps| > 0
  {
    if k == 0 then s else NextStep(NextTimes(s, steps, k - 1), steps)
  }

  /** Presses of `next` add up. */
  lemma {:induction false} NextTimesAdd(s: PageState, steps: seq<DemoStep>, a: nat, b: nat)
    requires |steps| > 0
    ensures NextTimes(s, steps, a + b) == NextTimes(NextTimes(s, steps, a), steps, b)
  {
    if b > 0 {
      NextTimesAdd(s, steps, a, b - 1);
    }
  }

  /** Before the last step is passed, `k` presses of `next` move exactly `k` steps forward. */
  lemma {:induction false} NextTimesNoWrap(s: PageState, steps: seq<DemoStep>, k: nat)
    requires |steps| > 0 && ShowsStep(s, steps) && s.currentStep + k < |steps|
    ensures var i := s.currentStep + k;
      NextTimes(s, steps, k) == s.(currentStep := i, statusText := steps[i].msg, graph := steps[i].data)
  {
    if k > 0 {
      NextTimesNoWrap(s, steps, k - 1);
    }
  }

  /** Pressing `next` once per step goes round to where it started. */
  lemma FullCycle(s: PageState, steps: seq<DemoStep>)
    requires |steps| > 0 && ShowsStep(s, steps)
    ensures NextTimes(s, steps, |steps|) == s
  {
    var n := |steps|;
    var i := s.currentStep;
    NextTimesNoWrap(s, steps, n - 1 - i);
    var u := NextTimes(s, steps, n - i);
    assert u.currentStep == 0 && u.chat == s.chat;
    assert ShowsStep(u, steps);
    NextTimesNoWrap(u, steps, i);
    NextTimesAdd(s, steps, n - i, i);
  }

  /** `handleSendMessage`'s guard: an empty (after trimming) input, or a request in flight, sends nothing. */
  function SendMessage(chat: seq<ChatBubble>, input: string, isLoading: bool): (r: Option<seq<ChatBubble>>)
    ensures r.None? <==> Trim(input) == [] || isLoading
    ensures r.Some? ==> r.value == chat + [ChatBubble(true, Trim(input))]
  {
    var trimmed := Trim(input);
    if trimmed == [] || isLoading then None else Some(chat + [ChatBubble(true, trimmed)])
  }

  /** The snapshot a reply carries: its `graph_data`, or the whole reply when that is absent. */
  function Carried(parsed: Json): (g: Json)
    requires !IsNullish(parsed)
    ensures !IsNullish(g)
  {
    Coalesce(Prop(parsed, "graph_data"), parsed)
  }

  /** A snapshot the page takes: truthy `nodes` and `links`, and a `currentIteration` that is present. */
  predicate Acceptable(g: Json)
    requires !IsNullish(g)
  {
    Truthy(Prop(g, "nodes")) && Truthy(Prop(g, "links")) && !Prop(g, "currentIteration").Undefined?
  }

  /** `{...g, algo: g.algo || default, ...}`: each falsy parameter (0 included) replaced by its default. */
  function Defaulted(g: Json): (r: Json)
    requires !IsNullish(g)
    ensures r.Obj?
    ensures Prop(r, "algo") == Or(Prop(g, "algo"), Str(ALGO_PAGERANK))
    ensures Prop(r, "maxIterations") == Or(Prop(g, "maxIterations"), Num(DEFAULT_MAX_ITERATIONS as real))
    ensures Prop(r, "dampingFactor") == Or(Prop(g, "dampingFactor"), Num(DEFAULT_DAMPING_FACTOR))
    ensures Prop(r, "threshold") == Or(Prop(g, "threshold"), Num(DEFAULT_THRESHOLD))
    ensures g.Obj? ==> forall k :: k in g.fields && k !in {"algo", "maxIterations", "dampingFactor", "threshold"} ==>
      k in r.fields && r.fields[k] == g.fields[k]
  {
    var a := WithField(g, "algo", Or(Prop(g, "algo"), Str(ALGO_PAGERANK)));
    var b := WithField(a, "maxIterations", Or(Prop(g, "maxIterations"), Num(DEFAULT_MAX_ITERATIONS as real)));
    var c := WithField(b, "dampingFactor", Or(Prop(g, "dampingFactor"), Num(DEFAULT_DAMPING_FACTOR)));
    WithField(c, "threshold", Or(Prop(g, "threshold"), Num(DEFAULT_THRESHOLD)))
  }

  /**
   * The graph after a reply: `parsed` is what `JSON.parse` made of the
   * extracted block (`None` when there was none or it did not parse). A
   * `null` reply throws inside the handler and, like a rejected snapshot,
   * leaves the graph as it was.
   */
  function GraphAfterReply(graph: Json, parsed: Option<Json>): (r: Json)
    ensures parsed.None? || IsNullish(parsed.value) ==> r == graph
    ensures parsed.Some? && !IsNullish(parsed.value) && !Acceptable(Carried(parsed.value)) ==> r == graph
    ensures parsed.Some? && !IsNullish(parsed.value) && Acceptable(Carried(parsed.value)) ==> r == Defaulted(Carried(parsed.value))
  {
    if parsed.None? || IsNullish(parsed.value) then graph
    else
      var g := Carried(parsed.value);
      if Acceptable(g) then Defaulted(g) else graph
  }

  /** An accepted snapshot always has truthy parameters, so nothing downstream sees 0 or a missing value. */
  lemma AcceptedHasParameters(graph: Json, v: Json)
    requires !IsNullish(v) && Acceptable(Carried(v))
    ensures var r := GraphAfterReply(graph, Some(v));
      Truthy(Prop(r, "algo")) && Truthy(Prop(r, "maxIterations")) && Truthy(Prop(r, "dampingFactor")) && Truthy(Prop(r, "threshold"))
  {
  }

  /** A damping factor of 0 in the reply is replaced by 0.85, because the default is chosen with `||`. */
  lemma ZeroDampingReplaced(graph: Json, v: Json)
    requires !IsNullish(v) && Acceptable(Carried(v)) && Prop(Carried(v), "dampingFactor") == Num(0.0)
    ensures Prop(GraphAfterReply(graph, Some(v)), "dampingFactor") == Num(0.85)
  {
  }

  /** A reply without `graph_data` is read as the snapshot itself; one with it, through it. */
  lemma CarriedEitherFormat(v: Json, inner: Json)
    requires v.Obj? && !IsNullish(inner)
    ensures "graph_data" !in v.fields ==> Carried(v) == v
    ensures "graph_data" in v.fields && v.fields["graph_data"] == inner ==> Carried(v) == inner
  {
  }
}
