/** The refine-and-extract graph of backend/services/langgraph_engine.py:
    transcribe (a pass-through), refine (one model call), then extract, which
    the conditional edge re-runs until three passes are done or no template
    field is missing. Model replies and `json.loads` are oracles: `llm(k)` is
    the reply to the k-th extract pass (counted from 0) and `parse` the
    parser's verdict on a cleaned reply. */
module Engine {
  import opened Schema
  import opened ReplyCleaning

  /** The iteration bound of `should_continue_extraction` */
  const MaxIterations: int := 3
  /** The sentinel the extraction prompt asks for (with a space) */
  const NotDetermined: string := "not determined"
  const TemplateNotFound: string := "Template not found"

  /** What `json.loads` makes of a cleaned reply */
  datatype ParseResult = Parsed(value: Value) | Malformed

  /** The graph state (`AgentState`) restricted to the keys the core reads or writes */
  datatype AgentState = AgentState(
    rawTranscript: string,
    refinedTranscript: string,
    extractedData: map<string, Value>,
    iterationCount: int,
    missingFields: seq<string>,
    errors: seq<string>)

  /** The labels "continue" and "end" of the conditional edge */
  datatype Route = Continue | End

  /** The state the request handler starts the graph with; it has no refined
      transcript yet, which the empty string stands for. */
  function InitialState(raw: string): (s: AgentState)
    ensures s.rawTranscript == raw
    ensures s.extractedData == map[] && s.iterationCount == 0
    ensures s.missingFields == [] && s.errors == []
  {
    AgentState(raw, "", map[], 0, [], [])
  }

  /** `transcribe_node` hands the raw transcript through unchanged */
  function TranscribeNode(s: AgentState): (r: AgentState)
    ensures r == s
  {
    s.(rawTranscript := s.rawTranscript)
  }

  /** `refine_transcript_node` stores the model's reply as the refined
      transcript and changes nothing else */
  function RefineNode(s: AgentState, reply: string): (r: AgentState)
    ensures r.refinedTranscript == reply
    ensures r.(refinedTranscript := s.refinedTranscript) == s
  {
    s.(refinedTranscript := reply)
  }

  /** `{**current, **new}`: every key of the new reply takes its new value, every other
      key of `current` keeps its old one, and no key is dropped */
  function MergeExtracted(current: map<string, Value>, incoming: map<string, Value>): (merged: map<string, Value>)
    ensures merged.Keys == current.Keys + incoming.Keys
    ensures forall k :: k in incoming ==> merged[k] == incoming[k]
    ensures forall k :: k in current && k !in incoming ==> merged[k] == current[k]
  {
    current + incoming
  }

  /** The try/except of the extract pass: only a reply that parses to a JSON
      object is merged; otherwise (parse error, or a list, string, number or
      null, on which the `**` spread raises) the data stays as it was. */
  function MergeReply(current: map<string, Value>, parsed: ParseResult): (merged: map<string, Value>)
    ensures parsed.Parsed? && parsed.value.Obj? ==> merged == MergeExtracted(current, parsed.value.members)
    ensures !(parsed.Parsed? && parsed.value.Obj?) ==> merged == current
  {
    match parsed
    case Parsed(Obj(members)) => MergeExtracted(current, members)
    case _ => current
  }

  /** A field counts as missing when it is absent or holds the spaced sentinel */
  predicate IsMissing(data: map<string, Value>, fid: string) {
    fid !in data || data[fid] == Str(NotDetermined)
  }

  /** The `missing_now` comprehension: the ids, in order, whose value is missing */
  function MissingFields(ids: seq<string>, data: map<string, Value>): (missing: seq<string>)
    ensures forall fid :: fid in missing <==> fid in ids && IsMissing(data, fid)
    ensures |missing| <= |ids|
  {
    if ids == [] then []
    else (if IsMissing(data, ids[0]) then [ids[0]] else []) + MissingFields(ids[1..], data)
  }

  /** Missing fields of a concatenation are listed part by part, so the
      missing list follows section order, then field order */
  lemma {:induction false} MissingFieldsAppend(a: seq<string>, b: seq<string>, data: map<string, Value>)
    ensures MissingFields(a + b, data) == MissingFields(a, data) + MissingFields(b, data)
    decreases |a|
  {
    if a == [] {
      assert a + b == b;
    } else {
      assert (a + b)[1..] == a[1..] + b;
      MissingFieldsAppend(a[1..], b, data);
    }
  }

  /** The template's field ids, built by appending inside two nested loops */
  method AllFieldIds(sections: seq<Section>) returns (ids: seq<string>)
    ensures ids == FieldIds(sections)
  {
    ids := [];
    for i := 0 to |sections|
      invariant ids == FieldIds(sections[..i])
    {
      var fields := sections[i].fields;
      for j := 0 to |fields|
        invariant ids == FieldIds(sections[..i]) + SectionFieldIds(fields[..j])
      {
        assert SectionFieldIds(fields[..j + 1]) == SectionFieldIds(fields[..j]) + [fields[j].id];
        ids := ids + [fields[j].id];
      }
      assert fields[..|fields|] == fields;
      FieldIdsSnoc(sections, i);
    }
    assert sections[..|sections|] == sections;
  }

  /** One run of `extract_data_node`, with its update applied to the state */
  function ExtractPass(s: AgentState, template: Option<Template>, reply: string,
                       parse: string -> ParseResult): AgentState
  {
    match template
    case None => s.(errors := [TemplateNotFound])
    case Some(t) =>
      var merged := MergeReply(s.extractedData, parse(Clean(reply)));
      s.(extractedData := merged,
         iterationCount := s.iterationCount + 1,
         missingFields := MissingFields(FieldIds(t.sections), merged))
  }

  /** What one pass changes. Without a template only `errors` is written.
      Otherwise the reply is cleaned, parsed and merged, the count goes up by
      exactly one, no error is recorded, and the missing list holds exactly
      the template ids whose merged value is absent or the sentinel, in
      template order. */
  lemma ExtractPassEffect(s: AgentState, template: Option<Template>, reply: string,
                          parse: string -> ParseResult)
    ensures var r := ExtractPass(s, template, reply, parse);
      && (template.None? ==> r == s.(errors := [TemplateNotFound]))
      && (template.Some? ==>
           && r.iterationCount == s.iterationCount + 1
           && r.rawTranscript == s.rawTranscript
           && r.refinedTranscript == s.refinedTranscript
           && r.errors == s.errors
           && r.extractedData == MergeReply(s.extractedData, parse(Clean(reply)))
           && (forall fid :: fid in r.missingFields <==>
                 && IsMissing(r.extractedData, fid)
                 && exists i, j :: 0 <= i < |template.value.sections| && 0 <= j < |template.value.sections[i].fields|
                                   && template.value.sections[i].fields[j].id == fid))
  {
    if template.Some? {
      var r := ExtractPass(s, template, reply, parse);
      forall fid | true
        ensures fid in r.missingFields <==>
          && IsMissing(r.extractedData, fid)
          && exists i, j :: 0 <= i < |template.value.sections| && 0 <= j < |template.value.sections[i].fields|
                            && template.value.sections[i].fields[j].id == fid
      {
        FieldIdsMembership(template.value.sections, fid);
      }
    }
  }

  /** `extract_data_node` as the source runs it, with the field-id loop */
  method ExtractDataNode(s: AgentState, template: Option<Template>, reply: string,
                         parse: string -> ParseResult) returns (r: AgentState)
    ensures r == ExtractPass(s, template, reply, parse)
  {
    if template.None? {
      return s.(errors := [TemplateNotFound]);
    }
    var iteration := s.iterationCount + 1;
    var merged := MergeReply(s.extractedData, parse(Clean(reply)));
    var ids := AllFieldIds(template.value.sections);
    r := s.(extractedData := merged, iterationCount := iteration,
            missingFields := MissingFields(ids, merged));
  }

  /** `should_continue_extraction`: end once three passes are done or nothing is missing */
  function ShouldContinueExtraction(s: AgentState): (route: Route)
    ensures route == End <==> s.iterationCount >= MaxIterations || s.missingFields == []
  {
    if s.iterationCount >= MaxIterations then End
    else if s.missingFields == [] then End
    else Continue
  }

  /** The state after transcribe and refine, which the first extract pass sees */
  function BeforeExtraction(raw: string, refineReply: string): AgentState {
    RefineNode(TranscribeNode(InitialState(raw)), refineReply)
  }

  /** The state after `k` extract passes */
  function AfterPasses(s: AgentState, template: Option<Template>, llm: nat -> string,
                       parse: string -> ParseResult, k: nat): AgentState
  {
    if k == 0 then s
    else ExtractPass(AfterPasses(s, template, llm, parse, k - 1), template, llm(k - 1), parse)
  }

  /** Routing said "continue" after each of the passes before pass `n` */
  predicate ContinuedBefore(s: AgentState, template: Option<Template>, llm: nat -> string,
                            parse: string -> ParseResult, n: nat)
  {
    forall j :: 1 <= j < n ==> RouteAfter(s, template, llm, parse, j) == Continue
  }

  /** The routing decision taken after pass `k` */
  function RouteAfter(s: AgentState, template: Option<Template>, llm: nat -> string,
                      parse: string -> ParseResult, k: nat): Route
  {
    ShouldContinueExtraction(AfterPasses(s, template, llm, parse, k))
  }

  lemma ContinuedBeforeStep(s: AgentState, template: Option<Template>, llm: nat -> string,
                            parse: string -> ParseResult, n: nat)
    requires ContinuedBefore(s, template, llm, parse, n)
    requires RouteAfter(s, template, llm, parse, n) == Continue
    ensures ContinuedBefore(s, template, llm, parse, n + 1)
  {
  }

  /** With a template, every pass adds exactly one to the iteration count */
  lemma {:induction false} IterationCountAfterPasses(s: AgentState, template: Option<Template>,
                                                     llm: nat -> string, parse: string -> ParseResult, k: nat)
    requires template.Some?
    ensures AfterPasses(s, template, llm, parse, k).iterationCount == s.iterationCount + k
  {
    if k > 0 {
      IterationCountAfterPasses(s, template, llm, parse, k - 1);
    }
  }

  /** Without a template, passes record only the error, so the missing list
      stays as it started */
  lemma {:induction false} NoTemplateKeepsState(s: AgentState, llm: nat -> string,
                                                parse: string -> ParseResult, k: nat)
    requires k >= 1
    ensures AfterPasses(s, None, llm, parse, k) == s.(errors := [TemplateNotFound])
  {
    if k > 1 {
      NoTemplateKeepsState(s, llm, parse, k - 1);
    }
  }

  /** From the request handler's starting state, routing says "end" after at
      most three passes whatever the replies, and after the first pass when
      the template is absent */
  lemma EndsWithinBound(raw: string, refineReply: string, template: Option<Template>,
                        llm: nat -> string, parse: string -> ParseResult, k: nat)
    requires k >= MaxIterations || (template.None? && k >= 1)
    ensures ShouldContinueExtraction(AfterPasses(BeforeExtraction(raw, refineReply), template, llm, parse, k)) == End
  {
    var s := BeforeExtraction(raw, refineReply);
    if template.Some? {
      IterationCountAfterPasses(s, template, llm, parse, k);
    } else {
      NoTemplateKeepsState(s, llm, parse, k);
    }
  }

  /** The compiled graph: transcribe, refine, then extract until routing says
      "end". It stops at the first pass after which routing says "end", that
      pass is at most the third, and the state returned is the one that pass left. */
  method RunWorkflow(raw: string, refineReply: string, template: Option<Template>,
                     llm: nat -> string, parse: string -> ParseResult)
    returns (final: AgentState, passes: nat)
    ensures 1 <= passes <= MaxIterations
    ensures final == AfterPasses(BeforeExtraction(raw, refineReply), template, llm, parse, passes)
    ensures ShouldContinueExtraction(final) == End
    ensures ContinuedBefore(BeforeExtraction(raw, refineReply), template, llm, parse, passes)
    ensures final.rawTranscript == raw && final.refinedTranscript == refineReply
    ensures template.Some? ==> final.iterationCount == passes && final.errors == []
    ensures template.None? ==> passes == 1 && final.extractedData == map[] && final.errors == [TemplateNotFound]
  {
    var state := TranscribeNode(InitialState(raw));
    state := RefineNode(state, refineReply);
    ghost var start := BeforeExtraction(raw, refineReply);
    assert state == start;
    state := ExtractDataNode(state, template, llm(0), parse);
    passes := 1;
    assert state == AfterPasses(start, template, llm, parse, 1);
    while ShouldContinueExtraction(state) == Continue
      invariant 1 <= passes <= MaxIterations
      invariant state == AfterPasses(start, template, llm, parse, passes)
      invariant ContinuedBefore(start, template, llm, parse, passes)
      invariant template.None? ==> passes == 1
      invariant state.rawTranscript == raw && state.refinedTranscript == refineReply
      invariant template.Some? ==> state.iterationCount == passes && state.errors == []
      invariant template.None? ==> state == start.(errors := [TemplateNotFound])
      decreases MaxIterations - passes
    {
      ghost var before := state;
      state := ExtractDataNode(state, template, llm(passes), parse);
      ContinuedBeforeStep(start, template, llm, parse, passes);
      assert state == AfterPasses(start, template, llm, parse, passes + 1) by {
        assert AfterPasses(start, template, llm, parse, passes + 1)
            == ExtractPass(before, template, llm(passes), parse);
      }
      passes := passes + 1;
    }
    final := state;
  }

  // Worked runs over a template with the two fields "A" and "B".

  function TwoFieldTemplate(): Template {
    Template(None, None, None,
             [Section(Some("S"), [Field("A", Some("A"), None), Field("B", Some("B"), None)])])
  }

  lemma TwoFieldMissing(d: map<string, Value>)
    ensures FieldIds(TwoFieldTemplate().sections) == ["A", "B"]
    ensures MissingFields(["A", "B"], d)
         == (if IsMissing(d, "A") then ["A"] else []) + (if IsMissing(d, "B") then ["B"] else [])
  {
    assert TwoFieldTemplate().sections[..0] == [];
    assert ["A", "B"][1..] == ["B"];
    assert ["B"][1..] == [];
  }

  /** Pass `k + 1` over the two-field template */
  lemma TwoFieldPass(s: AgentState, k: nat, llm: nat -> string, parse: string -> ParseResult)
    ensures var t := Some(TwoFieldTemplate());
            var prev := AfterPasses(s, t, llm, parse, k);
            var r := AfterPasses(s, t, llm, parse, k + 1);
            && r.extractedData == MergeReply(prev.extractedData, parse(Clean(llm(k))))
            && r.iterationCount == prev.iterationCount + 1
            && r.errors == prev.errors
            && r.missingFields == MissingFields(["A", "B"], r.extractedData)
  {
    TwoFieldMissing(map[]);
  }

  /** Pass `k + 1` over the two-field template when its reply parses to the
      object `incoming` */
  lemma TwoFieldObjectPass(s: AgentState, k: nat, llm: nat -> string, parse: string -> ParseResult,
                           incoming: map<string, Value>)
    requires parse(Clean(llm(k))) == Parsed(Obj(incoming))
    ensures var t := Some(TwoFieldTemplate());
            var prev := AfterPasses(s, t, llm, parse, k);
            var r := AfterPasses(s, t, llm, parse, k + 1);
            var d := prev.extractedData + incoming;
            && r.extractedData == d
            && r.iterationCount == prev.iterationCount + 1
            && r.missingFields == (if IsMissing(d, "A") then ["A"] else []) + (if IsMissing(d, "B") then ["B"] else [])
  {
    var t := Some(TwoFieldTemplate());
    TwoFieldPass(s, k, llm, parse);
    TwoFieldMissing(AfterPasses(s, t, llm, parse, k).extractedData + incoming);
  }

  /** Pass 1 fills A, pass 2 answers B with the sentinel, pass 3 returns {}:
      B stays missing and the run stops on the count after the third pass. */
  lemma SentinelStaysMissing(raw: string, refineReply: string, llm: nat -> string, parse: string -> ParseResult)
    requires parse(Clean(llm(0))) == Parsed(Obj(map["A" := Str("x")]))
    requires parse(Clean(llm(1))) == Parsed(Obj(map["B" := Str(NotDetermined)]))
    requires parse(Clean(llm(2))) == Parsed(Obj(map[]))
    ensures var s := BeforeExtraction(raw, refineReply);
            var t := Some(TwoFieldTemplate());
            && RouteAfter(s, t, llm, parse, 1) == Continue
            && RouteAfter(s, t, llm, parse, 2) == Continue
            && AfterPasses(s, t, llm, parse, 3).extractedData == map["A" := Str("x"), "B" := Str(NotDetermined)]
            && AfterPasses(s, t, llm, parse, 3).missingFields == ["B"]
            && RouteAfter(s, t, llm, parse, 3) == End
  {
    var s := BeforeExtraction(raw, refineReply);
    var d1 := map["A" := Str("x")];
    TwoFieldObjectPass(s, 0, llm, parse, d1);
    UnionEmpty(d1);
    TwoFieldObjectPass(s, 1, llm, parse, map["B" := Str(NotDetermined)]);
    UnionSingleton(d1, "B", Str(NotDetermined));
    TwoFieldObjectPass(s, 2, llm, parse, map[]);
    UnionEmpty(d1["B" := Str(NotDetermined)]);
  }

  /** A reply storing the underscore form "not_determined" is a value like any
      other for the engine: the field is no longer missing and the run ends. */
  lemma UnderscoreSentinelIsNotMissing(raw: string, refineReply: string, llm: nat -> string, parse: string -> ParseResult)
    requires parse(Clean(llm(0))) == Parsed(Obj(map["A" := Str("x")]))
    requires parse(Clean(llm(1))) == Parsed(Obj(map["B" := Str("not_determined")]))
    ensures var s := BeforeExtraction(raw, refineReply);
            var t := Some(TwoFieldTemplate());
            && RouteAfter(s, t, llm, parse, 1) == Continue
            && AfterPasses(s, t, llm, parse, 2).missingFields == []
            && RouteAfter(s, t, llm, parse, 2) == End
  {
    var s := BeforeExtraction(raw, refineReply);
    var d1 := map["A" := Str("x")];
    TwoFieldObjectPass(s, 0, llm, parse, d1);
    UnionEmpty(d1);
    TwoFieldObjectPass(s, 1, llm, parse, map["B" := Str("not_determined")]);
    UnionSingleton(d1, "B", Str("not_determined"));
  }

  lemma UnionSingleton(m: map<string, Value>, k: string, v: Value)
    ensures m + map[k := v] == m[k := v]
  {
  }

  lemma UnionEmpty(m: map<string, Value>)
    ensures map[] + m == m && m + map[] == m
  {
  }

  /** A malformed second reply leaves the data of pass 1 in place, records no
      error, and the count still reaches 2. */
  lemma MalformedPassStillCounts(raw: string, refineReply: string, llm: nat -> string, parse: string -> ParseResult)
    requires parse(Clean(llm(0))) == Parsed(Obj(map["A" := Str("x")]))
    requires parse(Clean(llm(1))) == Malformed
    ensures var s := BeforeExtraction(raw, refineReply);
            var t := Some(TwoFieldTemplate());
            && AfterPasses(s, t, llm, parse, 2).extractedData == map["A" := Str("x")]
            && AfterPasses(s, t, llm, parse, 2).iterationCount == 2
            && AfterPasses(s, t, llm, parse, 2).errors == []
            && RouteAfter(s, t, llm, parse, 2) == Continue
  {
    var s := BeforeExtraction(raw, refineReply);
    var t := Some(TwoFieldTemplate());
    var d1 := map["A" := Str("x")];
    TwoFieldObjectPass(s, 0, llm, parse, d1);
    UnionEmpty(d1);
    TwoFieldPass(s, 1, llm, parse);
    TwoFieldMissing(d1);
  }

  /** Merging an empty object leaves the data unchanged */
  lemma MergeEmptyIsIdentity(data: map<string, Value>)
    ensures MergeExtracted(data, map[]) == data
  {
  }

  /** A later pass may overwrite a determined value with the sentinel, which
      makes the field missing again */
  lemma SentinelOverwritesValue(data: map<string, Value>, incoming: map<string, Value>, fid: string)
    requires fid in data && data[fid] != Str(NotDetermined)
    requires fid in incoming && incoming[fid] == Str(NotDetermined)
    ensures !IsMissing(data, fid) && IsMissing(MergeExtracted(data, incoming), fid)
  {
  }
}
