# Refine-and-extract engine and report layout of TuroAISTT

TuroAISTT turns a dictated radiology report into structured data for a CAP
cancer protocol and prints it as a DOCX report. This project models the two
core services of its backend in Dafny and proves properties of the model:

- `backend/services/langgraph_engine.py`: the LangGraph workflow. A
  pass-through `transcribe` node, a `refine` node that stores the model's
  corrected transcript, and an `extract` node that asks the model for the
  template's fields, cleans the reply of Markdown code fences, parses it as
  JSON, merges it over the data of earlier passes and lists the fields still
  missing. A conditional edge re-runs `extract` until three passes are done or
  nothing is missing.
- `backend/services/report_gen.py`: `generate_radiology_report`, whose
  document is modelled as the sequence of headings and paragraphs it appends:
  the title block, then per template section a heading and one
  "label: value" paragraph per field, where the value is the label of the
  matching option, the raw value, or a bold "not determined".

Files:

- `schema.dfy` (module `Schema`): JSON values and Python truthiness, the CAP
  template (sections, fields, options) and its list of field ids.
- `cleaning.dfy` (module `ReplyCleaning`): `str.replace` and `str.strip` as
  used on the extraction reply, and what the cleaning guarantees.
- `engine.dfy` (module `Engine`): the graph state, the three nodes, the
  routing function and the whole run.
- `report.dfy` (module `Report`): display values, the document layout and
  the nested loops that build it.

The language model and `json.loads` are parameters: `llm(k)` is the reply to
the k-th extract pass (counted from 0), `refineReply` the reply to the refine
call, and `parse` the parser's verdict on a cleaned reply (`Parsed(value)` or
`Malformed`). Reading the template file becomes an `Option<Template>`
argument, `None` when the file does not exist.

Behaviours of the code that the model keeps, some of them unexpected:

- keys of the reply that are not template fields are kept in
  `extracted_data` (the merge is an unrestricted `{**current, **new}`);
- a malformed reply is only printed, never added to `errors`, and the pass
  still counts towards the three;
- the refine node has no error handling of its own;
- the cleaning of the reply is not limited to the enclosing code fence:
  every "```json" and every "```" is deleted wherever it occurs, including
  inside the JSON body (in a free-text value, say);
- the missing list is an ordered list following template order, and it
  repeats an id that the template lists twice;
- a missing template is not fatal: the pass writes only
  `errors = ["Template not found"]`, leaves the count at 0 and the missing
  list empty, so the routing ends the run after that one pass;
- the engine treats only the spaced "not determined" as missing. The
  underscore form "not_determined" counts as a real value there, while the
  report generator prints it as "not determined". The two strings are kept
  exactly as the code writes them.

## Model

| member | source | states |
|---|---|---|
| Engine.InitialState | backend/main.py:93-103 | the graph starts with the raw transcript, no data, count 0, no missing fields and no errors |
| Engine.TranscribeNode | backend/services/langgraph_engine.py:35-37 | the transcribe node hands the state through unchanged |
| Engine.RefineNode | backend/services/langgraph_engine.py:39-53 | the refine node sets the refined transcript to the model's reply and changes nothing else |
| Engine.MergeExtracted | backend/services/langgraph_engine.py:103-104 | the merged data has the keys of both maps; keys of the new reply take its values, every other key keeps its old value |
| Engine.MergeReply | backend/services/langgraph_engine.py:99-107 | only a reply that parses to a JSON object is merged; any other outcome leaves the data as it was |
| Engine.MissingFields | backend/services/langgraph_engine.py:115 | with `IsMissing` modelling the test `get(fid) == "not determined" or fid not in merged`, an id is listed exactly when it is a template id whose value is absent or "not determined", and the list is no longer than the id list |
| Engine.MissingFieldsAppend | backend/services/langgraph_engine.py:110-115 | the missing list of concatenated id lists is the concatenation of their missing lists, so it keeps template order |
| Engine.AllFieldIds | backend/services/langgraph_engine.py:110-113 | the nested loops collect the field ids section by section, field by field |
| Schema.FieldIdsMembership | backend/services/langgraph_engine.py:110-113 | an id is collected exactly when some field of some section carries it |
| Engine.ExtractPassEffect | backend/services/langgraph_engine.py:55-121 | `ExtractPass` models one extract pass with its update applied to the state: without a template only the error is written; with one the count goes up by one, the cleaned and parsed reply is merged, no error is recorded and the missing list holds exactly the template ids that are missing after the merge |
| Engine.ExtractDataNode | backend/services/langgraph_engine.py:55-121 | the node, with its id-collecting loop, leaves the state that one extract pass specifies |
| Engine.ShouldContinueExtraction | backend/services/langgraph_engine.py:123-129 | the route is "end" exactly when three passes are done or nothing is missing |
| Engine.IterationCountAfterPasses | backend/services/langgraph_engine.py:68 | with a template, k passes add exactly k to the count |
| Engine.NoTemplateKeepsState | backend/services/langgraph_engine.py:57-59 | without a template every pass leaves the starting state with only the error written |
| Engine.EndsWithinBound | backend/services/langgraph_engine.py:123-151 | whatever the replies, routing says "end" after the third pass, and after the first when the template is missing |
| Engine.RunWorkflow | backend/services/langgraph_engine.py:131-151 | the run stops at the first pass after which routing says "end", after one to three passes; the transcripts are kept, the count equals the number of passes and no error is recorded when the template exists, and a missing template gives one pass, no data and the single error |
| Engine.SentinelStaysMissing | backend/services/langgraph_engine.py:86-90 | a field the model answers with "not determined" stays missing through all three passes, and the run then stops on the count |
| Engine.UnderscoreSentinelIsNotMissing | backend/services/langgraph_engine.py:115 | the value "not_determined" is not missing for the engine, so the run ends once every field has it or a real value |
| Engine.MalformedPassStillCounts | backend/services/langgraph_engine.py:99-107 | a malformed reply keeps the earlier data, records no error and still raises the count |
| Engine.SentinelOverwritesValue | backend/services/langgraph_engine.py:104 | a later "not determined" overwrites an earlier value and makes the field missing again |
| Engine.MergeEmptyIsIdentity | backend/services/langgraph_engine.py:104 | merging an empty reply leaves the data unchanged |
| ReplyCleaning.StripIsTrimmedSlice | backend/services/langgraph_engine.py:101 | `Strip` models `strip()`: it keeps a slice of its argument, removes only whitespace and leaves no whitespace at either end |
| ReplyCleaning.RemoveFenceLeavesNone | backend/services/langgraph_engine.py:101 | `RemoveAll` models `replace(pat, "")` (left to right, no overlaps); after every "```" is removed no "```" is left, even where removals bring backticks together |
| ReplyCleaning.CleanLeavesNoFence | backend/services/langgraph_engine.py:101 | `Clean` models the two replaces and the strip; the text handed to the parser never contains "```" |
| ReplyCleaning.PlainReplyIsOnlyStripped | backend/services/langgraph_engine.py:101 | a reply without backticks is only stripped |
| ReplyCleaning.FencedReplyYieldsBody | backend/services/langgraph_engine.py:101 | a body without backticks, wrapped in a "```json … ```" block, comes back as the stripped body |
| ReplyCleaning.InnerFenceIsDeleted | backend/services/langgraph_engine.py:101 | the replaces also delete a "```" inside the body: "```json" + "a```b" + "```" cleans to "ab", while stripping alone keeps "a```b" |
| Report.FirstOptionLabelFinds | backend/services/report_gen.py:39 | `FirstOptionLabel` models the `next(...)` lookup: it finds nothing exactly when no option stores the value, and otherwise yields the label of the first option that does |
| Report.DisplayValueCases | backend/services/report_gen.py:35-42 | `DisplayValue` models `display_value`: a falsy value or "not_determined" shows "not determined"; otherwise a field with options shows the non-empty label of the first matching option and the raw value when none matches or its label is empty; a field without options shows the raw value |
| Report.SentinelsPrintBold | backend/services/report_gen.py:35-46 | an absent or falsy value, "not_determined", and "not determined" when no option stores it, all print as a bold "not determined" |
| Report.BoldExactlyWhenNotDetermined | backend/services/report_gen.py:44-46 | the value run of `FieldLineFor` is bold if and only if it shows "not determined", including an option whose label is "not determined" |
| Report.OptionLabelRoundTrip | backend/services/report_gen.py:38-40 | a stored option value prints as its label ("right" as "Right Side"), a value no option stores prints as stored |
| Report.FieldLinesAt | backend/services/report_gen.py:27-46 | `FieldLineFor` models one field's paragraph (label run, display value, bold flag), and a section's fields give one paragraph each, in field order |
| Report.GenerateRadiologyReport | backend/services/report_gen.py:13-46 | `ReportLines` (with `HeaderLines`) is the document as a function; the nested loops append exactly the header block and then each section's heading and field paragraphs |
| Report.ReportHeader | backend/services/report_gen.py:15-21 | `HeaderLines` models lines 16-21: the document opens with the organ (else "Radiology Report"), the template id and posting date (each "N/A" when absent) and a rule of 50 dashes, and has one line per section and per field after those four |
| Report.SectionsLinesAppend | backend/services/report_gen.py:24-27 | the lines of two runs of sections are the first run's lines followed by the second's |
| Report.ReportSectionBlock | backend/services/report_gen.py:24-46 | the document is the header, the blocks of the sections before section i, section i's heading ("SECTION" when unnamed) and field paragraphs, then the blocks after it |

## Left out

- The model calls, the prompts and `json.loads` are parameters (`llm`, `refineReply`, `parse`); their contents, the model's behaviour and timeouts are not modelled.
- Reading the template file is an `Option<Template>` argument; file paths and the template id that names the file are not modelled.
- `AgentState` keeps only the keys the core reads or writes; `audio_path`, `body_part` and `segments` are never changed by these nodes and are left out.
- LangGraph itself (state merging of partial updates, the recursion limit, asynchronous invocation) is replaced by `RunWorkflow`'s loop; the graph's update semantics are written out in `ExtractPass`.
- Engine.RunWorkflow: the template is one `Option<Template>` for the whole run, while the source checks `template_path.exists()` and re-reads the file on every pass (langgraph_engine.py:57-62). If the file disappears after a pass, later passes write only `errors` and keep the count and the missing list, so routing keeps saying "continue" until LangGraph's recursion limit raises; the 1-to-3 pass bound of `RunWorkflow` and `EndsWithinBound` relies on the template not changing during a run.
- Engine.RunWorkflow: an exception from `json.load` of the template (line 62) or from `llm.invoke` (lines 52 and 97) is outside any `try` and aborts the whole run; the model's `llm` always answers and the template always decodes.
- Engine.ExtractPass: models a pass whose template file exists and decodes and whose model call returns; the failing `json.load` of the template (line 62) and a raising `llm.invoke` (line 97) are not modelled, and the file is not re-read per pass (see the `RunWorkflow` lines above).
- Engine.RefineNode: exceptions raised by the model call are not modelled; the source does not catch them either.
- The `print` of a JSON error in the extract node is output only and is left out.
- JSON numbers are integers; floating-point values are not modelled.
- A key that is present with a JSON null (`"organ": null`, `"label": null`) is modelled like an absent key only for `label`; for the other `.get(key, default)` lookups only the absent key is modelled.
- Templates whose fields lack `field_id`, or whose options lack `value` or `label`, are excluded by the types. In the engine such a template raises `KeyError` (langgraph_engine.py:113, and `opt["value"]`/`opt["label"]` at report_gen.py:39); in the report generator a field without `field_id` is looked up as `data.get(None)` (report_gen.py:28-30) and prints a bold "not determined" instead of failing.
- Report.GenerateRadiologyReport: the value run holds `str()` of the display value; the model keeps the JSON value itself and does not model Python's `str()` of numbers, lists or objects.
- Fonts, alignment, the centred title and saving the DOCX file (python-docx) are not modelled.
- `backend/services/transcription.py`, the HTTP handlers of `backend/main.py`, the frontend and the Streamlit tools are not part of this model.
