/**
 * The PageRank session protocol: the graph snapshot exchanged between the
 * views, the ranking code and the bot; the protocol constants; and the
 * validator of a request body.
 */
module PageRankProtocol {
  import opened Wrappers
  import opened JsText
  import opened Json

  /** One node of a snapshot; `rank` is a share of the whole, `x`/`y` are drawing hints. */
  datatype Node = Node(id: string, labelText: Option<string>, rank: Option<real>, x: Option<real>, y: Option<real>)

  /** One link of a snapshot; `flow` is written by the vote-flow step. */
  datatype Link = Link(source: string, target: string, weight: Option<real>, flow: Option<real>)

  datatype GraphData = GraphData(
    nodes: seq<Node>,
    links: seq<Link>,
    currentIteration: Option<int>,
    maxIterations: Option<int>,
    dampingFactor: Option<real>,
    threshold: Option<real>,
    algo: string,
    traversalMode: Option<string>)

  // The protocol constants (PAGERANK_PROTOCOL).
  const ALGO_PAGERANK: string := "pagerank"
  const DEFAULT_MAX_ITERATIONS: int := 50
  const DEFAULT_DAMPING_FACTOR: real := 0.85
  const DEFAULT_THRESHOLD: real := 0.0001
  const CONTENT_TYPE_TEXT: string := "text"
  const ROLE_USER: string := "user"
  const ROLE_ASSISTANT: string := "assistant"

  /** What `validateRequest` returns. */
  datatype Validation = Validation(valid: bool, errors: seq<string>)

  /** A call either returns, or throws the TypeError of reading a property of `null`/`undefined`. */
  datatype Outcome = Returned(result: Validation) | ThrewTypeError

  /** The four basic fields, in the order they are checked. */
  function BasicErrors(request: Json): seq<string>
    requires !IsNullish(request)
  {
    (if !Truthy(Prop(request, "bot_id")) then ["Missing bot_id"] else [])
    + (if !Truthy(Prop(request, "user")) then ["Missing user"] else [])
    + (if Prop(request, "stream").Undefined? then ["Missing stream"] else [])
    + (if !Truthy(Prop(request, "query")) then ["Missing query"] else [])
  }

  /**
   * The checks of the parsed graph data. `parsed` is what `JSON.parse`
   * produced, or None when it threw; reading `.nodes` of a parsed `null`
   * throws inside the same `try` and lands in the same `catch`.
   */
  function GraphDataErrors(parsed: Option<Json>): seq<string> {
    if parsed.None? || IsNullish(parsed.value) then ["Invalid graph_data JSON format"]
    else
      var g := parsed.value;
      (if !Prop(g, "nodes").Arr? then ["Invalid graph_data.nodes"] else [])
      + (if !Prop(g, "links").Arr? then ["Invalid graph_data.links"] else [])
      + (if !Truthy(Prop(g, "algo")) then ["Missing graph_data.algo"] else [])
  }

  /** The `custom_variables` checks; `parse` stands for `JSON.parse`. */
  function CustomVariableErrors(request: Json, parse: Json -> Option<Json>): seq<string>
    requires !IsNullish(request)
  {
    var cv := Prop(request, "custom_variables");
    if !Truthy(cv) then ["Missing custom_variables"]
    else
      var gd := Prop(cv, "graph_data");
      if !Truthy(gd) then ["Missing custom_variables.graph_data"]
      else GraphDataErrors(parse(gd))
  }

  function RoleError(i: nat): string { "Invalid role in additional_messages[" + NatToString(i) + "]" }
  function ContentError(i: nat): string { "Missing content in additional_messages[" + NatToString(i) + "]" }
  function ContentTypeError(i: nat): string { "Invalid content_type in additional_messages[" + NatToString(i) + "]" }

  /** The errors message `i` adds: role, then content, then content type. */
  function MessageErrors(msg: Json, i: nat): seq<string>
    requires !IsNullish(msg)
  {
    var role := Prop(msg, "role");
    (if role != Str(ROLE_USER) && role != Str(ROLE_ASSISTANT) then [RoleError(i)] else [])
    + (if !Truthy(Prop(msg, "content")) then [ContentError(i)] else [])
    + (if Prop(msg, "content_type") != Str(CONTENT_TYPE_TEXT) then [ContentTypeError(i)] else [])
  }

  /** The errors of a list of messages, message by message in list order. */
  function MessagesErrors(msgs: seq<Json>): seq<string>
    requires forall k :: 0 <= k < |msgs| ==> !IsNullish(msgs[k])
  {
    if msgs == [] then [] else MessagesErrors(msgs[..|msgs| - 1]) + MessageErrors(msgs[|msgs| - 1], |msgs| - 1)
  }

  /** True when reading the request, or one of its messages, throws. */
  predicate Throws(request: Json) {
    IsNullish(request)
    || (var am := Prop(request, "additional_messages");
        Truthy(am) && am.Arr? && exists k :: 0 <= k < |am.items| && IsNullish(am.items[k]))
  }

  /** The `additional_messages` checks (only when the field is truthy). */
  function AdditionalMessageErrors(request: Json): seq<string>
    requires !Throws(request)
  {
    var am := Prop(request, "additional_messages");
    if !Truthy(am) then []
    else if !am.Arr? then ["Invalid additional_messages format"]
    else MessagesErrors(am.items)
  }

  /** The `custom_variables` part of `validateRequest`. */
  method CheckCustomVariables(request: Json, parse: Json -> Option<Json>) returns (errors: seq<string>)
    requires !IsNullish(request)
    ensures errors == CustomVariableErrors(request, parse)
  {
    errors := [];
    var cv := Prop(request, "custom_variables");
    if !Truthy(cv) {
      errors := errors + ["Missing custom_variables"];
    } else {
      var gd := Prop(cv, "graph_data");
      if !Truthy(gd) {
        errors := errors + ["Missing custom_variables.graph_data"];
      } else {
        var parsed := parse(gd);
        if parsed.None? || IsNullish(parsed.value) {
          errors := errors + ["Invalid graph_data JSON format"];
        } else {
          var g := parsed.value;
          if !Prop(g, "nodes").Arr? { errors := errors + ["Invalid graph_data.nodes"]; }
          if !Prop(g, "links").Arr? { errors := errors + ["Invalid graph_data.links"]; }
          if !Truthy(Prop(g, "algo")) { errors := errors + ["Missing graph_data.algo"]; }
        }
      }
    }
  }

  /** The `forEach` callback of the message loop: pushes the errors of message `i`. */
  method PushMessageErrors(previous: seq<string>, msg: Json, i: nat) returns (errors: seq<string>)
    requires !IsNullish(msg)
    ensures errors == previous + MessageErrors(msg, i)
  {
    var role := Prop(msg, "role");
    var roleErrors: seq<string> := [];
    if role != Str(ROLE_USER) && role != Str(ROLE_ASSISTANT) { roleErrors := [RoleError(i)]; }
    var contentErrors: seq<string> := [];
    if !Truthy(Prop(msg, "content")) { contentErrors := [ContentError(i)]; }
    var typeErrors: seq<string> := [];
    if Prop(msg, "content_type") != Str(CONTENT_TYPE_TEXT) { typeErrors := [ContentTypeError(i)]; }
    errors := previous + (roleErrors + contentErrors + typeErrors);
  }

  /** The `additional_messages` loop: stops with a TypeError at the first `null`/`undefined` message. */
  method CheckMessages(msgs: seq<Json>) returns (errors: seq<string>, threw: bool)
    ensures threw <==> exists k :: 0 <= k < |msgs| && IsNullish(msgs[k])
    ensures !threw ==> errors == MessagesErrors(msgs)
  {
    errors := [];
    var i := 0;
    while i < |msgs|
      invariant 0 <= i <= |msgs|
      invariant forall k :: 0 <= k < i ==> !IsNullish(msgs[k])
      invariant errors == MessagesErrors(msgs[..i])
    {
      var msg := msgs[i];
      if IsNullish(msg) {
        return errors, true;
      }
      errors := PushMessageErrors(errors, msg, i);
      MessagesErrorsStep(msgs, i);
      i := i + 1;
    }
    assert msgs[..|msgs|] == msgs;
    threw := false;
  }

  /** One more message appends its own errors. */
  lemma MessagesErrorsStep(msgs: seq<Json>, i: nat)
    requires i < |msgs| && forall k :: 0 <= k <= i ==> !IsNullish(msgs[k])
    ensures MessagesErrors(msgs[..i + 1]) == MessagesErrors(msgs[..i]) + MessageErrors(msgs[i], i)
  {
    assert msgs[..i + 1][..i] == msgs[..i];
  }

  /**
   * `PageRankProtocolValidator.validateRequest`: collects the errors of the
   * basic fields, then of `custom_variables`, then of
   * `additional_messages`, and is valid exactly when there are none.
   */
  method ValidateRequest(request: Json, parse: Json -> Option<Json>) returns (out: Outcome)
    ensures out.ThrewTypeError? <==> Throws(request)
    ensures out.Returned? ==>
      out.result.errors == BasicErrors(request) + CustomVariableErrors(request, parse) + AdditionalMessageErrors(request)
    ensures out.Returned? ==> (out.result.valid <==> out.result.errors == [])
  {
    if IsNullish(request) {
      return ThrewTypeError;
    }
    var errors := CheckBasicFields(request);
    var customErrors := CheckCustomVariables(request, parse);
    errors := errors + customErrors;
    var messageErrors, threw := CheckAdditionalMessages(request);
    if threw {
      return ThrewTypeError;
    }
    errors := errors + messageErrors;
    out := Returned(Validation(|errors| == 0, errors));
  }

  /** The four basic-field checks of `validateRequest`. */
  method CheckBasicFields(request: Json) returns (errors: seq<string>)
    requires !IsNullish(request)
    ensures errors == BasicErrors(request)
  {
    errors := [];
    if !Truthy(Prop(request, "bot_id")) { errors := errors + ["Missing bot_id"]; }
    if !Truthy(Prop(request, "user")) { errors := errors + ["Missing user"]; }
    if Prop(request, "stream").Undefined? { errors := errors + ["Missing stream"]; }
    if !Truthy(Prop(request, "query")) { errors := errors + ["Missing query"]; }
  }

  /** The `additional_messages` part of `validateRequest`; `threw` when a message is `null` or `undefined`. */
  method CheckAdditionalMessages(request: Json) returns (errors: seq<string>, threw: bool)
    requires !IsNullish(request)
    ensures threw <==> Throws(request)
    ensures !threw ==> errors == AdditionalMessageErrors(request)
  {
    errors := [];
    threw := false;
    var am := Prop(request, "additional_messages");
    if Truthy(am) {
      if !am.Arr? {
        errors := ["Invalid additional_messages format"];
      } else {
        errors, threw := CheckMessages(am.items);
      }
    }
  }

  /** Each basic field adds its own error exactly when it fails its test; `stream: false` passes. */
  lemma BasicErrorsExact(request: Json)
    requires !IsNullish(request)
    ensures ("Missing bot_id" in BasicErrors(request)) <==> !Truthy(Prop(request, "bot_id"))
    ensures ("Missing user" in BasicErrors(request)) <==> !Truthy(Prop(request, "user"))
    ensures ("Missing stream" in BasicErrors(request)) <==> Prop(request, "stream").Undefined?
    ensures ("Missing query" in BasicErrors(request)) <==> !Truthy(Prop(request, "query"))
    ensures |BasicErrors(request)| <= 4
  {
  }

  /**
   * A missing `custom_variables` or `graph_data` gives one error and stops
   * there; an unparsable `graph_data` gives exactly the format error; a
   * parsed one gives at most the three independent shape errors.
   */
  lemma CustomVariableErrorsCases(request: Json, parse: Json -> Option<Json>)
    requires !IsNullish(request)
    ensures var cv := Prop(request, "custom_variables");
      && (!Truthy(cv) ==> CustomVariableErrors(request, parse) == ["Missing custom_variables"])
      && (Truthy(cv) && !Truthy(Prop(cv, "graph_data")) ==>
            CustomVariableErrors(request, parse) == ["Missing custom_variables.graph_data"])
      && (Truthy(cv) && Truthy(Prop(cv, "graph_data")) && parse(Prop(cv, "graph_data")).None? ==>
            CustomVariableErrors(request, parse) == ["Invalid graph_data JSON format"])
    ensures |CustomVariableErrors(request, parse)| <= 3
  {
  }

  /**
   * Message `i` adds at most three errors, each tagged with its own index,
   * so the message errors never outnumber three per message and every one
   * names a message that exists.
   */
  lemma {:induction false} MessagesErrorsTagged(msgs: seq<Json>)
    requires forall k :: 0 <= k < |msgs| ==> !IsNullish(msgs[k])
    ensures |MessagesErrors(msgs)| <= 3 * |msgs|
    ensures forall e :: e in MessagesErrors(msgs) ==> NamesMessage(e, |msgs|)
  {
    if msgs != [] {
      var n := |msgs|;
      var init := msgs[..n - 1];
      MessagesErrorsTagged(init);
      var own := MessageErrors(msgs[n - 1], n - 1);
      MessageErrorsTagged(msgs[n - 1], n - 1);
      assert MessagesErrors(msgs) == MessagesErrors(init) + own;
      forall e | e in MessagesErrors(msgs)
        ensures NamesMessage(e, n)
      {
        if e in MessagesErrors(init) {
          NamesMessageWiden(e, n - 1, n);
        }
      }
    }
  }

  /** One message's errors: at most three, each naming that message. */
  lemma MessageErrorsTagged(msg: Json, i: nat)
    requires !IsNullish(msg)
    ensures |MessageErrors(msg, i)| <= 3
    ensures forall e :: e in MessageErrors(msg, i) ==> NamesMessage(e, i + 1)
  {
    forall e | e in MessageErrors(msg, i)
      ensures NamesMessage(e, i + 1)
    {
      assert e == RoleError(i) || e == ContentError(i) || e == ContentTypeError(i);
    }
  }

  lemma NamesMessageWiden(e: string, n: nat, m: nat)
    requires NamesMessage(e, n) && n <= m
    ensures NamesMessage(e, m)
  {
  }

  /** Error `e` names one of the first `n` messages. */
  predicate NamesMessage(e: string, n: nat) {
    exists i :: 0 <= i < n && (e == RoleError(i) || e == ContentError(i) || e == ContentTypeError(i))
  }

  /** A message with a known role, some content and content type "text" adds no error. */
  lemma WellFormedMessageHasNoErrors(msg: Json, i: nat)
    requires !IsNullish(msg)
    requires Prop(msg, "role") == Str(ROLE_USER) || Prop(msg, "role") == Str(ROLE_ASSISTANT)
    requires Truthy(Prop(msg, "content"))
    requires Prop(msg, "content_type") == Str(CONTENT_TYPE_TEXT)
    ensures MessageErrors(msg, i) == []
  {
  }
}
