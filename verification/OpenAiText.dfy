/** Cost arithmetic and the usage envelope of one paid text call (openai_text.py). */
module OpenAiText {
  import opened Wrappers
  import opened Json

  const MODEL := "gpt-5.6-luna"
  const MAX_INPUT_BYTES := 4096
  const MAX_OUTPUT_TOKENS := 1024
  const ENVELOPE_MARGIN := 1024
  const MAX_ANSWER_BYTES := 65536

  datatype Provider = OpenAi | Ollama

  /** The parts of the wire request that vary; the other request fields are constants. */
  datatype Payload = Payload(provider: Provider, input: Utf8, maxOutputTokens: nat)

  /** Usage as reported by the provider, with the charge computed from it. */
  datatype Usage = Usage(status: string, inputTokens: nat, outputTokens: nat, accounted: nat)

  datatype UsageError = UnexpectedModel | UnverifiedStatus | MissingUsage | InvalidUsage | OutsideEnvelope

  // ----- cost arithmetic -----

  function CostMicrousd(inputTokens: nat, outputTokens: nat): nat {
    (inputTokens * 250 + outputTokens * 1200 + 999) / 1000
  }

  function Reservation(payload: Payload): nat {
    CostMicrousd(|payload.input| + ENVELOPE_MARGIN, payload.maxOutputTokens)
  }

  /** The charge is the least whole number of micro-dollars that covers the tariff. */
  lemma CostIsTheCeiling(inputTokens: nat, outputTokens: nat, amount: nat)
    ensures amount >= CostMicrousd(inputTokens, outputTokens)
      <==> amount * 1000 >= inputTokens * 250 + outputTokens * 1200
  {
  }

  /** Rounding up each of two calls never undercharges their total, and overcharges it by at most one. */
  lemma CostOfTwoCalls(in1: nat, out1: nat, in2: nat, out2: nat)
    ensures CostMicrousd(in1 + in2, out1 + out2)
         <= CostMicrousd(in1, out1) + CostMicrousd(in2, out2)
         <= CostMicrousd(in1 + in2, out1 + out2) + 1
  {
  }

  /** The size limits `request_payload` puts on an external request. */
  predicate WithinContract(payload: Payload) {
    1 <= |payload.input| <= MAX_INPUT_BYTES && 1 <= payload.maxOutputTokens <= MAX_OUTPUT_TOKENS
  }

  // ----- usage envelope -----

  predicate InEnvelope(usage: Usage, payload: Payload) {
    && usage.status in {"completed", "incomplete"}
    && usage.inputTokens <= |payload.input| + ENVELOPE_MARGIN
    && usage.outputTokens <= payload.maxOutputTokens
    && usage.accounted == CostMicrousd(usage.inputTokens, usage.outputTokens)
  }

  function ParseUsage(data: Json, payload: Payload): (r: Result<Usage, UsageError>)
    ensures r.Ok? ==> InEnvelope(r.value, payload) && r.value.accounted <= Reservation(payload)
  {
    if !data.Obj? || data.Get("model") != Str(MODEL) then Err(UnexpectedModel)
    else if data.Get("status") !in {Str("completed"), Str("incomplete")} || data.Get("error").Truthy() then
      Err(UnverifiedStatus)
    else
      var usage := data.Get("usage");
      if !usage.Obj? then Err(MissingUsage)
      else
        var input, output := usage.Get("input_tokens"), usage.Get("output_tokens");
        if !input.Int? || !output.Int? || input.i < 0 || output.i < 0 then Err(InvalidUsage)
        else if input.i > |payload.input| + ENVELOPE_MARGIN || output.i > payload.maxOutputTokens then
          Err(OutsideEnvelope)
        else Ok(Usage(data.Get("status").s, input.i, output.i, CostMicrousd(input.i, output.i)))
  }

  /** Usage is accepted exactly as reported, from the approved model, finished without error, inside the envelope. */
  lemma ParsedExactlyWhen(data: Json, payload: Payload, usage: Usage)
    ensures ParseUsage(data, payload) == Ok(usage) <==>
      && data.Obj? && data.Get("model") == Str("gpt-5.6-luna") && !data.Get("error").Truthy()
      && usage.status in {"completed", "incomplete"} && data.Get("status") == Str(usage.status)
      && data.Get("usage").Obj?
      && data.Get("usage").Get("input_tokens") == Int(usage.inputTokens)
      && data.Get("usage").Get("output_tokens") == Int(usage.outputTokens)
      && usage.inputTokens <= |payload.input| + 1024 && usage.outputTokens <= payload.maxOutputTokens
      && usage.accounted == CostMicrousd(usage.inputTokens, usage.outputTokens)
  {
  }

  /** The envelope the hold was computed for is what makes the hold sufficient. */
  lemma ReservationCovers(usage: Usage, payload: Payload)
    requires InEnvelope(usage, payload)
    ensures usage.accounted <= Reservation(payload)
  {
  }

  /** ... and it is exact: the largest usage in the envelope costs the whole hold. */
  lemma ReservationIsTight(payload: Payload)
    ensures exists usage :: InEnvelope(usage, payload) && usage.accounted == Reservation(payload)
  {
    var usage := Usage("completed", |payload.input| + ENVELOPE_MARGIN, payload.maxOutputTokens, Reservation(payload));
    assert InEnvelope(usage, payload);
  }

  /** The response a stored receipt is re-read as (model_receipts.py, `_proposal`). */
  function ReceiptData(usage: Usage): Json {
    Obj(map["model" := Str(MODEL), "status" := Str(usage.status),
            "usage" := Obj(map["input_tokens" := Int(usage.inputTokens), "output_tokens" := Int(usage.outputTokens)])])
  }

  /** Re-reading a receipt gives back exactly the usages inside the envelope, and no other. */
  lemma ReceiptRoundTrip(usage: Usage, payload: Payload)
    ensures ParseUsage(ReceiptData(usage), payload) == Ok(usage) <==> InEnvelope(usage, payload)
  {
    var data := ReceiptData(usage);
    assert data.Get("error") == Null;
    assert data.Get("usage").Get("input_tokens") == Int(usage.inputTokens);
  }

  // ----- answer text -----

  datatype Answer = Answer(complete: bool, text: Utf8, usage: Usage)

  datatype AnswerError = BadUsage | MissingOutput | UnexpectedItem | UnexpectedContent | Oversized

  /** The parts a message's content iterates over; None when iterating or reading a part raises. */
  function PartsOf(item: Json): Option<seq<Json>>
    requires item.Obj?
  {
    if "content" !in item.fields then Some([])
    else match item.fields["content"]
      case List(items) => Some(items)
      case Str(s) => if s == "" then Some([]) else None
      case Obj(fields) => if fields == map[] then Some([]) else None
      case _ => None
  }

  predicate IsRefusal(part: Json) {
    part.Obj? && part.Get("type") == Str("refusal")
  }

  predicate IsText(part: Json) {
    part.Obj? && part.Get("type") == Str("output_text") && part.Get("text").Str?
  }

  predicate IsReasoning(item: Json) {
    item.Obj? && item.Get("type") == Str("reasoning")
  }

  predicate IsMessage(item: Json) {
    item.Obj? && item.Get("type") == Str("message") && item.Get("role") == Str("assistant")
  }

  /** The texts of a list of content parts, in order. */
  function Texts(parts: seq<Json>): seq<Utf8> {
    if parts == [] then []
    else Texts(parts[..|parts| - 1]) + (if IsText(parts[|parts| - 1]) then [parts[|parts| - 1].Get("text").s] else [])
  }

  /** All content parts of all messages, in order; reasoning items contribute nothing. */
  function AllParts(items: seq<Json>): seq<Json> {
    if items == [] then []
    else
      var item := items[|items| - 1];
      AllParts(items[..|items| - 1]) + (if IsMessage(item) && PartsOf(item).Some? then PartsOf(item).value else [])
  }

  predicate WellFormedOutput(items: seq<Json>) {
    && (forall item <- items :: IsReasoning(item) || (IsMessage(item) && PartsOf(item).Some?))
    && forall part <- AllParts(items) :: IsRefusal(part) || IsText(part)
  }

  function Join(chunks: seq<Utf8>): Utf8 {
    if chunks == [] then ""
    else if |chunks| == 1 then chunks[0]
    else Join(chunks[..|chunks| - 1]) + "\n" + chunks[|chunks| - 1]
  }

  /** What `parse_response` accepts, as a function of the response; `redact` masks secrets in the text. */
  ghost function AnswerOf(data: Json, payload: Payload, redact: Utf8 -> Utf8): Result<Answer, ()> {
    match ParseUsage(data, payload)
    case Err(_) => Err(())
    case Ok(usage) =>
      var output := data.Get("output");
      if !output.List? || !WellFormedOutput(output.items) then Err(())
      else
        var parts := AllParts(output.items);
        var text := redact(Join(Texts(parts)));
        if |text| > MAX_ANSWER_BYTES then Err(())
        else
          var refused := exists part <- parts :: IsRefusal(part);
          Ok(Answer(usage.status == "completed" && text != "" && !refused, text, usage))
  }

  /** One output item is understood: reasoning, or an assistant's message of texts and refusals only. */
  predicate Understood(item: Json) {
    || (item.Obj? && item.Get("type") == Str("reasoning"))
    || (&& item.Obj? && item.Get("type") == Str("message") && item.Get("role") == Str("assistant") && PartsOf(item).Some?
        && forall part <- PartsOf(item).value ::
             part.Obj? && (part.Get("type") == Str("refusal")
                           || (part.Get("type") == Str("output_text") && part.Get("text").Str?)))
  }

  /** A message that refuses in some part. */
  predicate Refuses(item: Json) {
    IsMessage(item) && PartsOf(item).Some? && exists part <- PartsOf(item).value :: part.Obj? && part.Get("type") == Str("refusal")
  }

  lemma {:induction false} PartsByItem(items: seq<Json>)
    ensures forall part :: part in AllParts(items) <==>
      exists item <- items :: IsMessage(item) && PartsOf(item).Some? && part in PartsOf(item).value
  {
    if items != [] {
      PartsByItem(items[..|items| - 1]);
    }
  }

  /**
   A response has an answer exactly if its usage is accepted, every item of its output is understood, and the joined,
   redacted text is not oversized; it is complete exactly if the provider says so, the text is not empty and no
   message refuses.
  */
  lemma AnsweredExactlyWhen(data: Json, payload: Payload, redact: Utf8 -> Utf8, answer: Answer)
    ensures AnswerOf(data, payload, redact) == Ok(answer) <==>
      && ParseUsage(data, payload) == Ok(answer.usage)
      && data.Get("output").List? && (forall item <- data.Get("output").items :: Understood(item))
      && answer.text == redact(Join(Texts(AllParts(data.Get("output").items)))) && |answer.text| <= 65536
      && (answer.complete <==>
            && answer.usage.status == "completed" && answer.text != ""
            && forall item <- data.Get("output").items :: !Refuses(item))
  {
    if ParseUsage(data, payload).Ok? && data.Get("output").List? {
      ItemsUnderstood(data.Get("output").items);
      ItemsRefuse(data.Get("output").items);
    }
  }

  lemma ItemsRefuse(items: seq<Json>)
    ensures (exists part <- AllParts(items) :: IsRefusal(part)) <==> exists item <- items :: Refuses(item)
  {
    PartsByItem(items);
    if part :| part in AllParts(items) && IsRefusal(part) {
      var item :| item in items && IsMessage(item) && PartsOf(item).Some? && part in PartsOf(item).value;
      assert Refuses(item);
    }
    if item :| item in items && Refuses(item) {
      var part :| part in PartsOf(item).value && part.Obj? && part.Get("type") == Str("refusal");
      assert part in AllParts(items);
    }
  }

  lemma ItemsUnderstood(items: seq<Json>)
    ensures WellFormedOutput(items) <==> forall item <- items :: Understood(item)
  {
    PartsByItem(items);
    if WellFormedOutput(items) {
      forall item <- items ensures Understood(item) {
        if !IsReasoning(item) {
          forall part <- PartsOf(item).value ensures IsRefusal(part) || IsText(part) {
            assert part in AllParts(items);
          }
        }
      }
    }
    if forall item <- items :: Understood(item) {
      forall part <- AllParts(items) ensures IsRefusal(part) || IsText(part) {
        var item :| item in items && IsMessage(item) && PartsOf(item).Some? && part in PartsOf(item).value;
        assert Understood(item);
      }
    }
  }

  /** Texts are joined by line breaks, in order. */
  lemma {:induction false} JoinConcat(a: seq<Utf8>, b: seq<Utf8>)
    ensures a != [] && b != [] ==> Join(a + b) == Join(a) + "\n" + Join(b)
    ensures |a| == 1 ==> Join(a) == a[0]
    decreases |b|
  {
    if a != [] && b != [] {
      var init, last := b[..|b| - 1], b[|b| - 1];
      assert (a + b)[..|a + b| - 1] == a + init;
      if init == [] {
        assert a + init == a;
      } else {
        JoinConcat(a, init);
        assert Join(a) + "\n" + Join(init) + "\n" + last == Join(a) + "\n" + (Join(init) + "\n" + last);
      }
    }
  }

  /** The texts of the answer are those of its messages, in order. */
  lemma {:induction false} PartsConcat(a: seq<Json>, b: seq<Json>)
    ensures AllParts(a + b) == AllParts(a) + AllParts(b)
    decreases |b|
  {
    if b == [] {
      assert a + b == a;
    } else {
      assert (a + b)[..|a + b| - 1] == a + b[..|b| - 1];
      PartsConcat(a, b[..|b| - 1]);
    }
  }

  lemma TextsAppend(parts: seq<Json>, part: Json)
    ensures Texts(parts + [part]) == Texts(parts) + (if IsText(part) then [part.Get("text").s] else [])
  {
    assert (parts + [part])[..|parts|] == parts;
  }

  lemma {:induction false} TextsConcat(a: seq<Json>, b: seq<Json>)
    ensures Texts(a + b) == Texts(a) + Texts(b)
    decreases |b|
  {
    if b == [] {
      assert a + b == a;
    } else {
      var init, last := b[..|b| - 1], b[|b| - 1];
      TextsConcat(a, init);
      assert a + b == (a + init) + [last];
      TextsAppend(a + init, last);
    }
  }

  /** Reads one message's parts into the collected chunks; stops at the first part it does not know. */
  method ReadParts(parts: seq<Json>) returns (ok: bool, chunks: seq<Utf8>, refusal: bool)
    ensures ok == forall part <- parts :: IsRefusal(part) || IsText(part)
    ensures ok ==> chunks == Texts(parts) && refusal == exists part <- parts :: IsRefusal(part)
  {
    chunks, refusal := [], false;
    for k := 0 to |parts|
      invariant forall part <- parts[..k] :: IsRefusal(part) || IsText(part)
      invariant chunks == Texts(parts[..k])
      invariant refusal == exists part <- parts[..k] :: IsRefusal(part)
    {
      assert parts[..k + 1] == parts[..k] + [parts[k]];
      TextsAppend(parts[..k], parts[k]);
      if IsRefusal(parts[k]) {
        refusal := true;
      } else if IsText(parts[k]) {
        chunks := chunks + [parts[k].Get("text").s];
      } else {
        return false, [], false;
      }
    }
    assert parts[..|parts|] == parts;
    ok := true;
  }

  /** `parse_response`: the answer exists exactly when the whole output is understood, and is its text in order. */
  method ParseResponse(data: Json, payload: Payload, redact: Utf8 -> Utf8) returns (r: Result<Answer, AnswerError>)
    ensures r.Ok? <==> AnswerOf(data, payload, redact).Ok?
    ensures r.Ok? ==> r.value == AnswerOf(data, payload, redact).value
  {
    var parsed := ParseUsage(data, payload);
    if parsed.Err? {
      return Err(BadUsage);
    }
    var output := data.Get("output");
    if !output.List? {
      return Err(MissingOutput);
    }
    var items, chunks, refusal := output.items, [], false;
    for k := 0 to |items|
      invariant WellFormedOutput(items[..k])
      invariant chunks == Texts(AllParts(items[..k]))
      invariant refusal == exists part <- AllParts(items[..k]) :: IsRefusal(part)
    {
      var item := items[k];
      ItemAppended(items, k);
      if IsReasoning(item) {
        continue;
      }
      if !IsMessage(item) || PartsOf(item).None? {
        return Err(UnexpectedItem);
      }
      var parts := PartsOf(item).value;
      var known, more, refused := ReadParts(parts);
      if !known {
        return Err(UnexpectedContent);
      }
      TextsConcat(AllParts(items[..k]), parts);
      chunks, refusal := chunks + more, refusal || refused;
    }
    assert items[..|items|] == items;
    var text := redact(Join(chunks));
    if |text| > MAX_ANSWER_BYTES {
      return Err(Oversized);
    }
    r := Ok(Answer(parsed.value.status == "completed" && text != "" && !refusal, text, parsed.value));
  }

  /** Reading one more item: what it adds to the parts, and that an ill-formed prefix stays ill-formed. */
  lemma ItemAppended(items: seq<Json>, k: nat)
    requires k < |items|
    ensures IsReasoning(items[k]) ==> AllParts(items[..k + 1]) == AllParts(items[..k])
    ensures IsMessage(items[k]) && PartsOf(items[k]).Some? ==>
      AllParts(items[..k + 1]) == AllParts(items[..k]) + PartsOf(items[k]).value
    ensures items[..k + 1] == items[..k] + [items[k]]
    ensures WellFormedOutput(items) ==> WellFormedOutput(items[..k + 1])
  {
    assert items[..k + 1][..k] == items[..k];
    PartsPrefix(items, k + 1);
  }

  lemma {:induction false} PartsPrefix(items: seq<Json>, k: nat)
    requires k <= |items|
    ensures AllParts(items[..k]) <= AllParts(items)
    decreases |items| - k
  {
    if k < |items| {
      PartsPrefix(items, k + 1);
      assert items[..k + 1][..k] == items[..k];
    } else {
      assert items[..k] == items;
    }
  }
}
