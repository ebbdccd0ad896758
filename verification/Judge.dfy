/** The permit judge: generate, check the quote against the permit's own description, regenerate once,
    abstain; and the routing of what was accepted. */
module Judge {
  import opened Text
  import opened Quotes
  import QuoteLaws

  const MAX_ATTEMPTS: nat := 2

  datatype Permit = Permit(permitnum: string, description: Option<string>)

  /** What the model sends back; missing text fields read as empty. */
  datatype Answer =
    | Unavailable
    | Answer(finding: string, quote: string, confidence: real, routeProposal: Option<string>)

  datatype AbstainReason =
    | DescriptionEmpty
    | DescriptionBelowThreshold(length: nat)
    | JudgeUnavailable
    | ModelDeclined
    | Uncited(why: Reason)

  datatype Judgment = Judgment(
    permitnum: string, signalId: Option<string>, finding: string, confidence: real, citations: seq<string>,
    abstained: bool, quote: Option<string>, routeProposal: Option<string>, abstainReason: Option<AbstainReason>,
    quoteCheck: Option<QuoteCheck>, attempts: nat)

  /** Settings of the pipeline: digit class, case folding, and the least description worth judging. */
  datatype Setup = Setup(digit: DigitClass, fold: string -> string, evidenceMinChars: int)

  function DescriptionOf(permit: Permit): string {
    if permit.description.None? then [] else Strip(permit.description.value)
  }

  function CitationsFor(permit: Permit): seq<string> {
    ["permitnum:" + permit.permitnum, "field:description"]
  }

  function Abstain(permit: Permit, reason: AbstainReason, check: Option<QuoteCheck>, attempts: nat): Judgment {
    Judgment(permit.permitnum, None, [], 0.0, CitationsFor(permit), true, None, None, Some(reason), check, attempts)
  }

  function Clamp(x: real): real {
    if x < 0.0 then 0.0 else if x > 1.0 then 1.0 else x
  }

  /** A model endpoint: an arbitrary answer to every attempt, and the log of attempts it was asked for. */
  class JudgeClient {
    const answers: nat -> Answer
    var asked: seq<nat>

    constructor (answers: nat -> Answer)
      ensures this.answers == answers && asked == []
    {
      this.answers, asked := answers, [];
    }

    method Ask(attempt: nat) returns (answer: Answer)
      modifies this
      ensures answer == answers(attempt) && asked == old(asked) + [attempt]
    {
      asked := asked + [attempt];
      answer := answers(attempt);
    }
  }

  // ---- the pipeline ----

  predicate Declines(answer: Answer)
    requires answer.Answer?
  {
    Strip(answer.finding) == [] && Strip(answer.quote) == []
  }

  function Check(setup: Setup, permit: Permit, answer: Answer): QuoteCheck
    requires answer.Answer?
  {
    VerifyQuote(setup.digit, setup.fold, Some(answer.quote), Some(DescriptionOf(permit)))
  }

  function Publish(permit: Permit, answer: Answer, check: QuoteCheck, attempt: nat): Judgment
    requires answer.Answer?
  {
    Judgment(permit.permitnum, None, Strip(answer.finding), Clamp(answer.confidence), CitationsFor(permit), false,
             Some(check.quote), answer.routeProposal, None, Some(check), attempt)
  }

  /** Neither a citation nor a refusal: worth asking again. */
  ghost predicate Inconclusive(setup: Setup, permit: Permit, answer: Answer) {
    answer.Answer? && !Declines(answer) && !Check(setup, permit, answer).valid
  }

  ghost predicate ThinEvidence(setup: Setup, permit: Permit) {
    DescriptionOf(permit) == [] || |DescriptionOf(permit)| < setup.evidenceMinChars
  }

  /** The attempt that decides: the first, unless its answer is inconclusive. */
  ghost function Deciding(setup: Setup, permit: Permit, answers: nat -> Answer): (k: nat)
    ensures 1 <= k <= MAX_ATTEMPTS
  {
    if Inconclusive(setup, permit, answers(1)) then 2 else 1
  }

  /** What a permit's judgment comes to, in terms of the deciding answer alone. */
  ghost function Conclusion(setup: Setup, permit: Permit, answers: nat -> Answer): Judgment {
    var description := DescriptionOf(permit);
    var k := Deciding(setup, permit, answers);
    var answer := answers(k);
    if description == [] then Abstain(permit, DescriptionEmpty, None, 0)
    else if ThinEvidence(setup, permit) then Abstain(permit, DescriptionBelowThreshold(|description|), None, 0)
    else if answer.Unavailable? then Abstain(permit, JudgeUnavailable, None, k)
    else if Declines(answer) then Abstain(permit, ModelDeclined, None, k)
    else if Check(setup, permit, answer).valid then Publish(permit, answer, Check(setup, permit, answer), k)
    else Abstain(permit, Uncited(Check(setup, permit, answer).reason), Some(Check(setup, permit, answer)), MAX_ATTEMPTS)
  }

  /** Judge one permit, or abstain; the model is asked at most twice, and not at all on thin evidence. */
  method JudgePermit(setup: Setup, permit: Permit, client: JudgeClient) returns (j: Judgment)
    modifies client
    ensures j == Conclusion(setup, permit, client.answers)
    ensures client.asked == old(client.asked) + (if ThinEvidence(setup, permit) then []
                                                 else if Deciding(setup, permit, client.answers) == 1 then [1]
                                                 else [1, 2])
  {
    var description := DescriptionOf(permit);
    StripTrimmed(description);
    if description == [] {
      return Abstain(permit, DescriptionEmpty, None, 0);
    }
    if |Strip(description)| < setup.evidenceMinChars {
      return Abstain(permit, DescriptionBelowThreshold(|description|), None, 0);
    }
    var lastReason := NotInSource;
    var lastCheck: Option<QuoteCheck> := None;
    var attempt := 1;
    while attempt <= MAX_ATTEMPTS
      invariant 1 <= attempt <= MAX_ATTEMPTS + 1
      invariant client.asked == old(client.asked) + if attempt == 1 then [] else if attempt == 2 then [1] else [1, 2]
      invariant attempt > 1 ==> Inconclusive(setup, permit, client.answers(1))
      invariant attempt > 2 ==> Inconclusive(setup, permit, client.answers(2))
      invariant attempt > 2 ==> lastCheck == Some(Check(setup, permit, client.answers(2)))
      invariant attempt > 1 ==> lastCheck.Some? && lastReason == lastCheck.value.reason
    {
      var answer := client.Ask(attempt);
      if answer.Unavailable? {
        return Abstain(permit, JudgeUnavailable, None, attempt);
      }
      if Declines(answer) {
        return Abstain(permit, ModelDeclined, None, attempt);
      }
      var check := Check(setup, permit, answer);
      lastCheck, lastReason := Some(check), check.reason;
      if check.valid {
        return Publish(permit, answer, check, attempt);
      }
      attempt := attempt + 1;
    }
    j := Abstain(permit, Uncited(lastReason), lastCheck, MAX_ATTEMPTS);
  }

  // ---- routing ----

  datatype JudgmentRecord = JudgmentRecord(id: string, signalId: Option<string>, verdict: string, rationale: string)
  datatype EffectRecord = EffectRecord(
    id: string, reversible: bool, signalId: Option<string>, judgmentId: string, desk: string)
  datatype RouteRefusal = AbstentionProposesNoRoute | UncitedJudgment

  datatype Routed = Routed(effect: EffectRecord) | RouteRefused(why: RouteRefusal) | SubstrateUnavailable

  /** The substrate as docket sees it: what was posted to it, in order. */
  class RouteClient {
    var signals: seq<string>
    var judgments: seq<JudgmentRecord>
    var effects: seq<EffectRecord>

    constructor ()
      ensures signals == [] && judgments == [] && effects == []
    {
      signals, judgments, effects := [], [], [];
    }

    method PostSignal(id: string)
      modifies this`signals
      ensures signals == old(signals) + [id]
    {
      signals := signals + [id];
    }

    method PostJudgment(record: JudgmentRecord) returns (id: string)
      modifies this`judgments
      ensures judgments == old(judgments) + [record] && id == record.id
    {
      judgments := judgments + [record];
      id := record.id;
    }

    method PostEffect(record: EffectRecord) returns (r: EffectRecord)
      modifies this`effects
      ensures effects == old(effects) + [record] && r == record
    {
      effects := effects + [record];
      r := record;
    }
  }

  function SignalId(permitnum: string): string {
    "sig-permit-" + permitnum
  }

  /** The signal a judgment is bound to: its own, or else its permit's. */
  function SignalOf(j: Judgment): Option<string> {
    if j.signalId.Some? && j.signalId.value != "" then j.signalId
    else if j.permitnum != "" then Some(SignalId(j.permitnum)) else None
  }

  lemma SignalByFields(j: Judgment)
    ensures SignalOf(j) == if j.signalId != None && j.signalId != Some("") then j.signalId
                           else if j.permitnum == "" then None else Some("sig-permit-" + j.permitnum)
  {
  }

  /** A refused judgment posts nothing; an accepted one posts its permit's signal if the permit is at hand, itself with
      its quote as rationale, and one reversible effect bound to both. The two ids are fresh ones. */
  method RouteJudgment(j: Judgment, client: RouteClient, permit: Option<Permit>, judgmentId: string, effectId: string)
    returns (r: Routed)
    modifies client
    ensures !r.SubstrateUnavailable?
    ensures r.RouteRefused? <==> j.abstained || j.quote.None? || j.quote.value == []
    ensures r.RouteRefused? ==>
              client.signals == old(client.signals) && client.judgments == old(client.judgments)
              && client.effects == old(client.effects)
    ensures r.Routed? ==>
              && client.signals == old(client.signals)
                                   + (if permit.Some? then [SignalId(permit.value.permitnum)] else [])
              && client.judgments == old(client.judgments)
                                     + [JudgmentRecord(judgmentId, SignalOf(j), j.finding, j.quote.value)]
              && client.effects == old(client.effects) + [r.effect]
              && r.effect.(desk := []) == EffectRecord(effectId, true, SignalOf(j), judgmentId, [])
              && r.effect.desk == (if j.routeProposal.Some? && j.routeProposal.value != [] then j.routeProposal.value
                                   else "General review desk")
  {
    if j.abstained {
      return RouteRefused(AbstentionProposesNoRoute);
    }
    if j.quote.None? || j.quote.value == [] {
      return RouteRefused(UncitedJudgment);
    }
    var signalId := SignalOf(j);
    if permit.Some? {
      client.PostSignal(SignalId(permit.value.permitnum));
    }
    var ledgered := client.PostJudgment(JudgmentRecord(judgmentId, signalId, j.finding, j.quote.value));
    var desk := if j.routeProposal.Some? && j.routeProposal.value != [] then j.routeProposal.value
                else "General review desk";
    var effect := client.PostEffect(EffectRecord(effectId, true, signalId, ledgered, desk));
    r := Routed(effect);
  }

  /** The answer's quote is in the description, so the answer can be published. */
  ghost predicate Cites(setup: Setup, permit: Permit, answer: Answer) {
    answer.Answer? && Check(setup, permit, answer).valid
  }

  /** The rationale is a non-empty span of the permit's description, up to whitespace. */
  ghost predicate RestsOn(quote: string, description: string) {
    Ink(quote) != [] && Contains(Ink(description), Ink(quote))
  }

  lemma AcceptedQuoteRestsOnDescription(setup: Setup, permit: Permit, answer: Answer)
    ensures Cites(setup, permit, answer) ==> RestsOn(Check(setup, permit, answer).quote, DescriptionOf(permit))
  {
    if answer.Answer? {
      QuoteLaws.ValidQuoteIsInSource(setup.digit, setup.fold, Some(answer.quote), Some(DescriptionOf(permit)));
    }
  }

  /** Whatever the model answers: an abstention carries no quote, no finding and no route; anything else
      carries a quote that rests on the description. */
  lemma NeverUncited(setup: Setup, permit: Permit, answers: nat -> Answer)
    ensures var j := Conclusion(setup, permit, answers);
            && (j.abstained ==> j.quote.None? && j.routeProposal.None? && j.finding == [] && j.confidence == 0.0)
            && (!j.abstained ==> && j.quote.Some? && RestsOn(j.quote.value, DescriptionOf(permit))
                                 && 0.0 <= j.confidence <= 1.0)
            && j.attempts <= MAX_ATTEMPTS
  {
    hide Check, Declines, RestsOn;
    var answer := answers(Deciding(setup, permit, answers));
    AcceptedQuoteRestsOnDescription(setup, permit, answer);
  }

  /** Is an answer's quote in this text? */
  predicate QuoteIsIn(setup: Setup, answer: Answer, text: string)
    requires answer.Answer?
  {
    VerifyQuote(setup.digit, setup.fold, Some(answer.quote), Some(text)).valid
  }

  /** The outcome of a permit, by the fields of the permit and the answers. With enough description the model is asked
      again exactly if its first answer says something, a finding or a quote, and no quote of it is in the description.
      The answer that ended the asking then decides: it declined exactly if it has neither. */
  lemma ConclusionByFields(setup: Setup, permit: Permit, answers: nat -> Answer)
    ensures var j := Conclusion(setup, permit, answers);
            var text := if permit.description.None? then [] else Strip(permit.description.value);
            var first := answers(1);
            var again := && first.Answer? && (Strip(first.finding) != [] || Strip(first.quote) != [])
                         && !QuoteIsIn(setup, first, text);
            var k, a := if again then 2 else 1, if again then answers(2) else first;
            && (Deciding(setup, permit, answers) == 2 <==> again)
            && (j.abstainReason == Some(DescriptionEmpty) <==> text == [])
            && (text != [] ==>
                  (j.abstainReason == Some(DescriptionBelowThreshold(|text|)) <==> |text| < setup.evidenceMinChars))
            && (text != [] && |text| >= setup.evidenceMinChars ==>
                  && (j.abstainReason == Some(JudgeUnavailable) <==> a.Unavailable?)
                  && (j.abstainReason == Some(ModelDeclined)
                      <==> a.Answer? && Strip(a.finding) == [] && Strip(a.quote) == [])
                  && (!j.abstained <==> a.Answer? && QuoteIsIn(setup, a, text))
                  && (!j.abstained ==>
                        && j.finding == Strip(a.finding) && j.quote == Some(StripWrappingQuotes(a.quote))
                        && j.routeProposal == a.routeProposal && j.abstainReason == None
                        && (0.0 <= a.confidence <= 1.0 ==> j.confidence == a.confidence))
                  && (a.Answer? && (Strip(a.finding) != [] || Strip(a.quote) != []) && !QuoteIsIn(setup, a, text) ==>
                        var check := VerifyQuote(setup.digit, setup.fold, Some(a.quote), Some(text));
                        k == 2 && j.abstainReason == Some(Uncited(check.reason)) && j.quoteCheck == Some(check))
                  && j.attempts == k)
            && j.permitnum == permit.permitnum && j.citations == ["permitnum:" + permit.permitnum, "field:description"]
  {
    hide VerifyQuote, Strip;
    BlankIsNoCitation(setup, permit, answers(1));
    BlankIsNoCitation(setup, permit, answers(2));
    PublishesBare(setup, permit, answers(1));
    PublishesBare(setup, permit, answers(2));
  }

  lemma BlankIsNoCitation(setup: Setup, permit: Permit, answer: Answer)
    ensures answer.Answer? && Strip(answer.quote) == [] ==> !Check(setup, permit, answer).valid
  {
  }

  lemma PublishesBare(setup: Setup, permit: Permit, answer: Answer)
    ensures answer.Answer? && Check(setup, permit, answer).valid ==>
              Check(setup, permit, answer).quote == StripWrappingQuotes(answer.quote)
  {
    hide Normalize, Contains, Strip, StripWrappingQuotes;
  }

  /** A permit is judged, not abstained on, exactly when its description is long enough and one of the two
      answers cites it, the second counting only if the first was inconclusive. */
  lemma PublishedExactly(setup: Setup, permit: Permit, answers: nat -> Answer)
    ensures !Conclusion(setup, permit, answers).abstained
       <==> !ThinEvidence(setup, permit)
            && (Cites(setup, permit, answers(1))
                || (Inconclusive(setup, permit, answers(1)) && Cites(setup, permit, answers(2))))
  {
    hide Check;
    CitationIsNoRefusal(setup, permit, answers(1));
    CitationIsNoRefusal(setup, permit, answers(2));
  }

  lemma CitationIsNoRefusal(setup: Setup, permit: Permit, answer: Answer)
    ensures Cites(setup, permit, answer) ==> !Declines(answer)
  {
  }

  /** From the model's answers to the route: an effect reaches the substrate exactly if there is one and the permit was
      judged, and then only beside a rationale that rests on that permit's description, bound to its signal. By then
      the permit may no longer be found. */
  method JudgeAndRoute(setup: Setup, permit: Permit, model: JudgeClient, substrate: RouteClient?, found: bool,
                       judgmentId: string, effectId: string)
    returns (r: Routed)
    modifies model, substrate
    ensures r.SubstrateUnavailable? <==> substrate == null
    ensures substrate != null ==> (r.RouteRefused? <==> Conclusion(setup, permit, model.answers).abstained)
    ensures r.RouteRefused? ==>
              substrate.judgments == old(substrate.judgments) && substrate.effects == old(substrate.effects)
    ensures r.Routed? ==>
              var quote := Conclusion(setup, permit, model.answers).quote;
              && quote.Some? && RestsOn(quote.value, DescriptionOf(permit))
              && |substrate.judgments| == |old(substrate.judgments)| + 1
              && var record := substrate.judgments[|old(substrate.judgments)|];
                 && record.rationale == quote.value && record.id == r.effect.judgmentId
                 && record.signalId == r.effect.signalId == Some(SignalId(permit.permitnum))
                 && substrate.effects == old(substrate.effects) + [r.effect] && r.effect.reversible
                 && substrate.signals == old(substrate.signals) + if found then [SignalId(permit.permitnum)] else []
  {
    var j := JudgePermit(setup, permit, model);
    NeverUncited(setup, permit, model.answers);
    j := j.(signalId := Some(SignalId(permit.permitnum)));
    if substrate == null {
      return SubstrateUnavailable;
    }
    r := RouteJudgment(j, substrate, if found then Some(permit) else None, judgmentId, effectId);
  }
}
