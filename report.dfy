/** The report layout of backend/services/report_gen.py: a title heading,
    two information paragraphs and a rule, then per template section a
    heading followed by one "label: value" paragraph per field. The DOCX
    document is modelled as the sequence of lines appended to it. */
module Report {
  import opened Schema

  /** The text printed for an undetermined value (with a space) */
  const NotDeterminedText: string := "not determined"
  /** The stored token the renderer treats as undetermined (with an underscore) */
  const NotDeterminedToken: string := "not_determined"
  const DefaultTitle: string := "Radiology Report"
  const NotAvailable: string := "N/A"
  const DefaultSectionName: string := "SECTION"

  /** One element appended to the document. A field line is a paragraph with
      a bold "label: " run and a value run, bold when `valueBold` holds; the
      value run holds `str()` of `value`. */
  datatype Line =
    | Heading(text: string, level: nat)
    | Paragraph(text: string)
    | FieldLine(caption: string, value: Value, valueBold: bool)

  /** The rule `"-" * 50` */
  function Rule(): (r: string)
    ensures |r| == 50 && forall i :: 0 <= i < |r| ==> r[i] == '-'
  {
    seq(50, _ => '-')
  }

  /** Option `i` is the first whose stored value equals `v` */
  predicate FirstMatch(opts: seq<Choice>, v: Value, i: int) {
    && 0 <= i < |opts|
    && Str(opts[i].value) == v
    && forall j :: 0 <= j < i ==> Str(opts[j].value) != v
  }

  /** `next((opt["label"] for opt in options if opt["value"] == value), None)`:
      the label of the first option whose value equals `v`, if any */
  function FirstOptionLabel(opts: seq<Choice>, v: Value): Option<string> {
    if opts == [] then None
    else if Str(opts[0].value) == v then Some(opts[0].caption)
    else FirstOptionLabel(opts[1..], v)
  }

  /** The lookup finds nothing exactly when no option stores `v`, and
      otherwise yields the label of the first option that does */
  lemma {:induction false} FirstOptionLabelFinds(opts: seq<Choice>, v: Value)
    ensures FirstOptionLabel(opts, v).None? <==> forall i :: 0 <= i < |opts| ==> Str(opts[i].value) != v
    ensures FirstOptionLabel(opts, v).Some? ==>
      exists i :: FirstMatch(opts, v, i) && opts[i].caption == FirstOptionLabel(opts, v).value
  {
    if opts == [] {
    } else if Str(opts[0].value) == v {
      assert FirstMatch(opts, v, 0);
    } else {
      FirstOptionLabelFinds(opts[1..], v);
      assert forall i :: FirstMatch(opts[1..], v, i) ==> FirstMatch(opts, v, i + 1);
      assert forall i :: 1 <= i < |opts| ==> opts[i] == opts[1..][i - 1];
    }
  }

  /** `data.get(field_id)`: a missing key reads as None */
  function DataGet(data: map<string, Value>, fid: string): Value {
    if fid in data then data[fid] else Null
  }

  /** The text chosen for a field's value (`display_value`) */
  function DisplayValue(field: Field, v: Value): Value {
    if Truthy(v) && v != Str(NotDeterminedToken) then
      match field.options
      case Some(opts) =>
        var optionLabel := FirstOptionLabel(opts, v);
        if optionLabel.Some? && optionLabel.value != "" then Str(optionLabel.value) else v
      case None => v
    else Str(NotDeterminedText)
  }

  /** A falsy value or the underscore token reads "not determined"; otherwise
      a field with options shows the non-empty label of the first option whose
      value matches, and the raw value when no option matches or that label is
      empty; a field without options shows the raw value. */
  lemma DisplayValueCases(field: Field, v: Value)
    ensures !Truthy(v) || v == Str(NotDeterminedToken) ==> DisplayValue(field, v) == Str(NotDeterminedText)
    ensures Truthy(v) && v != Str(NotDeterminedToken) && field.options.None? ==> DisplayValue(field, v) == v
    ensures Truthy(v) && v != Str(NotDeterminedToken) && field.options.Some? ==>
      forall i :: FirstMatch(field.options.value, v, i) && field.options.value[i].caption != "" ==>
        DisplayValue(field, v) == Str(field.options.value[i].caption)
    ensures Truthy(v) && v != Str(NotDeterminedToken) && field.options.Some? ==>
      (forall i :: FirstMatch(field.options.value, v, i) ==> field.options.value[i].caption == "") ==>
        DisplayValue(field, v) == v
  {
    if field.options.Some? {
      FirstOptionLabelFinds(field.options.value, v);
    }
  }

  /** `f"{label}: "` where a missing label prints as None */
  function LabelText(caption: Option<string>): string {
    match caption
    case Some(l) => l
    case None => "None"
  }

  /** The paragraph written for one field: its label run, then its display
      value in a run that is bold when that value is "not determined" */
  function FieldLineFor(data: map<string, Value>, field: Field): Line {
    var display := DisplayValue(field, DataGet(data, field.id));
    FieldLine(LabelText(field.caption) + ": ", display, display == Str(NotDeterminedText))
  }

  /** The paragraphs of a run of fields, in field order */
  function FieldLines(data: map<string, Value>, fields: seq<Field>): seq<Line> {
    if fields == [] then []
    else FieldLines(data, fields[..|fields| - 1]) + [FieldLineFor(data, fields[|fields| - 1])]
  }

  /** One paragraph per field, the `j`-th for the `j`-th field */
  lemma {:induction false} FieldLinesAt(data: map<string, Value>, fields: seq<Field>)
    ensures |FieldLines(data, fields)| == |fields|
    ensures forall j :: 0 <= j < |fields| ==> FieldLines(data, fields)[j] == FieldLineFor(data, fields[j])
    decreases |fields|
  {
    if fields != [] {
      var init := fields[..|fields| - 1];
      FieldLinesAt(data, init);
      assert forall j :: 0 <= j < |init| ==> fields[j] == init[j];
    }
  }

  function SectionName(section: Section): string {
    section.name.GetOr(DefaultSectionName)
  }

  /** A section's heading followed by its fields' paragraphs */
  function SectionLines(data: map<string, Value>, section: Section): seq<Line> {
    [Heading(SectionName(section), 1)] + FieldLines(data, section.fields)
  }

  function SectionsLines(data: map<string, Value>, sections: seq<Section>): seq<Line> {
    if sections == [] then []
    else SectionsLines(data, sections[..|sections| - 1]) + SectionLines(data, sections[|sections| - 1])
  }

  function HeaderLines(t: Template): seq<Line> {
    [ Heading(t.organ.GetOr(DefaultTitle), 0),
      Paragraph("Template ID: " + t.templateId.GetOr(NotAvailable)),
      Paragraph("Protocol Posting Date: " + t.postingDate.GetOr(NotAvailable)),
      Paragraph(Rule()) ]
  }

  /** The whole document */
  function ReportLines(data: map<string, Value>, t: Template): seq<Line> {
    HeaderLines(t) + SectionsLines(data, t.sections)
  }

  /** `generate_radiology_report`: the header, then nested loops over sections
      and fields appending to the document */
  method GenerateRadiologyReport(data: map<string, Value>, t: Template) returns (doc: seq<Line>)
    ensures doc == ReportLines(data, t)
  {
    doc := [Heading(t.organ.GetOr(DefaultTitle), 0)];
    doc := doc + [Paragraph("Template ID: " + t.templateId.GetOr(NotAvailable))];
    doc := doc + [Paragraph("Protocol Posting Date: " + t.postingDate.GetOr(NotAvailable))];
    doc := doc + [Paragraph(Rule())];
    assert doc == HeaderLines(t);
    for i := 0 to |t.sections|
      invariant doc == HeaderLines(t) + SectionsLines(data, t.sections[..i])
    {
      var section := t.sections[i];
      var lines := [Heading(SectionName(section), 1)];
      for j := 0 to |section.fields|
        invariant lines == [Heading(SectionName(section), 1)] + FieldLines(data, section.fields[..j])
      {
        var field := section.fields[j];
        var display := DisplayValue(field, DataGet(data, field.id));
        var bold := display == Str(NotDeterminedText);
        AppendAssoc([Heading(SectionName(section), 1)], FieldLines(data, section.fields[..j]), [FieldLineFor(data, field)]);
        lines := lines + [FieldLine(LabelText(field.caption) + ": ", display, bold)];
        FieldLinesSnoc(data, section.fields, j);
      }
      assert section.fields[..|section.fields|] == section.fields;
      AppendAssoc(HeaderLines(t), SectionsLines(data, t.sections[..i]), lines);
      doc := doc + lines;
      SectionsLinesSnoc(data, t.sections, i);
    }
    assert t.sections[..|t.sections|] == t.sections;
  }

  lemma AppendAssoc<T>(a: seq<T>, b: seq<T>, c: seq<T>)
    ensures (a + b) + c == a + (b + c)
  {
  }

  lemma FieldLinesSnoc(data: map<string, Value>, fields: seq<Field>, j: nat)
    requires j < |fields|
    ensures FieldLines(data, fields[..j + 1]) == FieldLines(data, fields[..j]) + [FieldLineFor(data, fields[j])]
  {
    assert fields[..j + 1][..j] == fields[..j];
  }

  lemma SectionsLinesSnoc(data: map<string, Value>, sections: seq<Section>, i: nat)
    requires i < |sections|
    ensures SectionsLines(data, sections[..i + 1]) == SectionsLines(data, sections[..i]) + SectionLines(data, sections[i])
  {
    assert sections[..i + 1][..i] == sections[..i];
  }

  /** The number of lines the first `i` sections take */
  function LinesBefore(sections: seq<Section>, i: nat): nat
    requires i <= |sections|
  {
    if i == 0 then 0 else LinesBefore(sections, i - 1) + 1 + |sections[i - 1].fields|
  }

  lemma {:induction false} SectionsLength(data: map<string, Value>, sections: seq<Section>)
    ensures |SectionsLines(data, sections)| == LinesBefore(sections, |sections|)
    decreases |sections|
  {
    if sections != [] {
      var init := sections[..|sections| - 1];
      SectionsLength(data, init);
      LinesBeforePrefix(sections, init, |init|);
      FieldLinesAt(data, sections[|sections| - 1].fields);
    }
  }

  lemma {:induction false} LinesBeforePrefix(sections: seq<Section>, init: seq<Section>, n: nat)
    requires init <= sections && n <= |init|
    ensures LinesBefore(init, n) == LinesBefore(sections, n)
    decreases n
  {
    if n > 0 {
      LinesBeforePrefix(sections, init, n - 1);
    }
  }

  /** The lines of two runs of sections are the lines of the first run
      followed by those of the second */
  lemma {:induction false} SectionsLinesAppend(data: map<string, Value>, a: seq<Section>, b: seq<Section>)
    ensures SectionsLines(data, a + b) == SectionsLines(data, a) + SectionsLines(data, b)
    decreases |b|
  {
    if b == [] {
      assert a + b == a;
    } else {
      var init := b[..|b| - 1];
      SectionsLinesAppend(data, a, init);
      assert (a + b)[..|a + b| - 1] == a + init;
      assert (a + b)[|a + b| - 1] == b[|b| - 1];
      AppendAssoc(SectionsLines(data, a), SectionsLines(data, init), SectionLines(data, b[|b| - 1]));
    }
  }

  /** The document is the header, then the blocks of the sections before
      section `i`, then section `i`'s heading and field lines, then the
      blocks of the sections after it */
  lemma ReportSectionBlock(data: map<string, Value>, t: Template, i: nat)
    requires i < |t.sections|
    ensures ReportLines(data, t)
            == HeaderLines(t)
               + SectionsLines(data, t.sections[..i])
               + ([Heading(if t.sections[i].name.Some? then t.sections[i].name.value else "SECTION", 1)]
                  + FieldLines(data, t.sections[i].fields))
               + SectionsLines(data, t.sections[i + 1..])
  {
    var before := t.sections[..i];
    var after := t.sections[i + 1..];
    var h := HeaderLines(t);
    var p := SectionsLines(data, before);
    var q := SectionLines(data, t.sections[i]);
    var r := SectionsLines(data, after);
    assert t.sections == (before + [t.sections[i]]) + after;
    SectionsLinesAppend(data, before + [t.sections[i]], after);
    SectionsLinesAppend(data, before, [t.sections[i]]);
    assert [t.sections[i]][..0] == [];
    assert SectionsLines(data, [t.sections[i]]) == q;
    assert SectionsLines(data, t.sections) == (p + q) + r;
    AppendAssoc(h, p + q, r);
    AppendAssoc(h, p, q);
  }

  /** The document opens with the title (the organ, else "Radiology
      Report"), the template id and the posting date (each "N/A" when
      absent) and a rule of 50 dashes; after those four lines come the
      sections' lines and nothing else */
  lemma ReportHeader(data: map<string, Value>, t: Template)
    ensures var doc := ReportLines(data, t);
      && |doc| == 4 + LinesBefore(t.sections, |t.sections|)
      && doc[0] == Heading(if t.organ.Some? then t.organ.value else "Radiology Report", 0)
      && doc[1] == Paragraph("Template ID: " + if t.templateId.Some? then t.templateId.value else "N/A")
      && doc[2] == Paragraph("Protocol Posting Date: " + if t.postingDate.Some? then t.postingDate.value else "N/A")
      && doc[3] == Paragraph(Rule())
  {
    SectionsLength(data, t.sections);
    assert ReportLines(data, t)[..4] == HeaderLines(t);
  }

  /** The sentinels all print as a bold "not determined": an absent or falsy
      value, the underscore token, and the engine's spaced sentinel when no
      option of the field has it as its value. */
  lemma SentinelsPrintBold(data: map<string, Value>, field: Field)
    requires var v := DataGet(data, field.id);
      || !Truthy(v)
      || v == Str(NotDeterminedToken)
      || (v == Str(NotDeterminedText) &&
          (field.options.Some? ==> forall i :: 0 <= i < |field.options.value| ==>
                                     field.options.value[i].value != NotDeterminedText))
    ensures FieldLineFor(data, field).value == Str("not determined")
    ensures FieldLineFor(data, field).valueBold
  {
    var v := DataGet(data, field.id);
    if Truthy(v) && v != Str(NotDeterminedToken) && field.options.Some? {
      var opts := field.options.value;
      assert forall i :: 0 <= i < |opts| ==> Str(opts[i].value) != v;
      FirstOptionLabelFinds(opts, v);
    }
  }

  /** A value run is bold exactly when it shows "not determined", whatever
      produced that text (a sentinel, or an option labelled so) */
  lemma BoldExactlyWhenNotDetermined(data: map<string, Value>, field: Field)
    ensures FieldLineFor(data, field).valueBold <==> FieldLineFor(data, field).value == Str("not determined")
  {
  }

  /** A select field storing the canonical value "right" shows its label
      "Right Side"; a value no option carries is shown as stored. */
  lemma OptionLabelRoundTrip()
    ensures var f := Field("specimen_laterality", Some("Specimen Laterality"),
                           Some([Choice("left", "Left"), Choice("right", "Right Side")]));
      && DisplayValue(f, Str("right")) == Str("Right Side")
      && DisplayValue(f, Str("bilateral")) == Str("bilateral")
  {
    var opts := [Choice("left", "Left"), Choice("right", "Right Side")];
    assert FirstMatch(opts, Str("right"), 1);
    assert forall i :: 0 <= i < |opts| ==> Str(opts[i].value) != Str("bilateral");
  }
}
