/** Values and protocol templates shared by the extraction engine and the
    report generator: JSON values as `json.loads` yields them, Python's
    truthiness of those values, and the CAP template structure
    (sections holding fields, fields holding options). */
module Schema {

  datatype Option<T> = None | Some(value: T) {
    /** `dict.get(key, default)` once the lookup has been made */
    function GetOr(default: T): T {
      match this
      case Some(v) => v
      case None => default
    }
  }

  /** A JSON value. Numbers are integers in this model. */
  datatype Value =
    | Null
    | Bool(b: bool)
    | Num(n: int)
    | Str(s: string)
    | Arr(items: seq<Value>)
    | Obj(members: map<string, Value>)

  /** Python's truth value of a JSON value: None, False, 0, "", [] and {} are falsy */
  predicate Truthy(v: Value) {
    match v
    case Null => false
    case Bool(b) => b
    case Num(n) => n != 0
    case Str(s) => s != ""
    case Arr(items) => items != []
    case Obj(m) => m != map[]
  }

  /** One entry of a field's "options": the stored token ("value") and the
      printed text ("label"; `label` is a Dafny keyword, hence `caption`) */
  datatype Choice = Choice(value: string, caption: string)

  /** A template field ("field_id", "label", "options"). `caption` is absent
      when the JSON has no "label"; `options` is absent when it has no "options" key. */
  datatype Field = Field(id: string, caption: Option<string>, options: Option<seq<Choice>>)

  /** A template section; a missing "fields" key reads as the empty list */
  datatype Section = Section(name: Option<string>, fields: seq<Field>)

  /** A CAP protocol template; a missing "sections" key reads as the empty list */
  datatype Template = Template(
    organ: Option<string>,
    templateId: Option<string>,
    postingDate: Option<string>,
    sections: seq<Section>)

  /** The ids of the fields of one section, in field order */
  function SectionFieldIds(fields: seq<Field>): (ids: seq<string>)
    ensures |ids| == |fields|
    ensures forall j :: 0 <= j < |fields| ==> ids[j] == fields[j].id
  {
    seq(|fields|, j requires 0 <= j < |fields| => fields[j].id)
  }

  /** The ids of all fields of the template, section by section, field by field */
  function FieldIds(sections: seq<Section>): (ids: seq<string>)
  {
    if sections == [] then []
    else FieldIds(sections[..|sections| - 1]) + SectionFieldIds(sections[|sections| - 1].fields)
  }

  /** An id is listed exactly when some field of some section carries it */
  lemma {:induction false} FieldIdsMembership(sections: seq<Section>, fid: string)
    ensures fid in FieldIds(sections) <==>
      exists i, j :: 0 <= i < |sections| && 0 <= j < |sections[i].fields| && sections[i].fields[j].id == fid
  {
    if sections != [] {
      var n := |sections| - 1;
      var init := sections[..n];
      FieldIdsMembership(init, fid);
      var last := SectionFieldIds(sections[n].fields);
      assert FieldIds(sections) == FieldIds(init) + last;
      if fid in FieldIds(sections) {
        if fid in FieldIds(init) {
          var i, j :| 0 <= i < |init| && 0 <= j < |init[i].fields| && init[i].fields[j].id == fid;
          assert sections[i] == init[i];
        } else {
          assert fid in last;
          var j :| 0 <= j < |last| && last[j] == fid;
          assert sections[n].fields[j].id == fid;
        }
      } else {
        forall i, j | 0 <= i < |sections| && 0 <= j < |sections[i].fields|
          ensures sections[i].fields[j].id != fid
        {
          if i < n {
            assert sections[i] == init[i];
          } else {
            assert last[j] == sections[i].fields[j].id;
          }
        }
      }
    }
  }

  /** The id list of a template extended by one section extends the list by that section's ids */
  lemma FieldIdsSnoc(sections: seq<Section>, i: nat)
    requires i < |sections|
    ensures FieldIds(sections[..i + 1]) == FieldIds(sections[..i]) + SectionFieldIds(sections[i].fields)
  {
    assert sections[..i + 1][..i] == sections[..i];
  }
}
