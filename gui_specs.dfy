// Control-panel specifications (anigraph/GUISpecs.ts). A control spec is a
// dictionary of named fields; the builders fill in `value`, `onChange` and
// the control's own fields and then spread the caller's `otherSpecs` over
// them. `MakeFolder` groups a set of controls under a folder name.

module GuiSpecs {
  import opened Wrappers
  import opened Strings

  /**
   * A field of a control spec. Callbacks are not values the model can run;
   * a `Handler` stands for a callback by an identifier.
   */
  datatype SpecValue =
    | Number(number: real)
    | Flag(flag: bool)
    | Text(text: string)
    | Choices(options: seq<string>)
    | Handler(callback: nat)

  /** One control: its named fields. */
  type Control = map<string, SpecValue>

  /** What `folder(...)` is given: the (possibly renamed) controls and whether it starts collapsed. */
  datatype Folder<V> = Folder(entries: map<string, V>, collapsed: bool)

  /** Key of control `name` once placed in folder `folderName`. */
  function KeyNameInFolder(name: string, folderName: string): string {
    name + "_" + folderName
  }

  /** Inside one folder, different controls keep different keys. */
  lemma KeyNameInFolderInjective(a: string, b: string, folderName: string)
    requires KeyNameInFolder(a, folderName) == KeyNameInFolder(b, folderName)
    ensures a == b
  {
    assert a + "_" + folderName == a + ("_" + folderName);
    assert b + "_" + folderName == b + ("_" + folderName);
    SuffixCancel(a, b, "_" + folderName);
  }

  /**
   * `renamed` holds exactly the controls of `done`, each under its key in
   * folder `name`.
   */
  ghost predicate RenamedSoFar<V>(spec: map<string, V>, name: string, done: set<string>, renamed: map<string, V>) {
    && done <= spec.Keys
    && (forall k :: k in done ==> KeyNameInFolder(k, name) in renamed && renamed[KeyNameInFolder(k, name)] == spec[k])
    && (forall key :: key in renamed ==> exists k :: k in done && key == KeyNameInFolder(k, name))
  }

  /** Renaming one more control keeps `RenamedSoFar`. */
  lemma RenameOneMore<V>(spec: map<string, V>, name: string, done: set<string>, renamed: map<string, V>, k: string)
    requires RenamedSoFar(spec, name, done, renamed) && k in spec && k !in done
    ensures |renamed[KeyNameInFolder(k, name) := spec[k]]| == |renamed| + 1
    ensures RenamedSoFar(spec, name, done + {k}, renamed[KeyNameInFolder(k, name) := spec[k]])
  {
    var key := KeyNameInFolder(k, name);
    if key in renamed {
      var j :| j in done && key == KeyNameInFolder(j, name);
      KeyNameInFolderInjective(j, k, name);
      assert false;
    }
    var after := renamed[key := spec[k]];
    forall key' | key' in after
      ensures exists j :: j in done + {k} && key' == KeyNameInFolder(j, name)
    {
      if key' != key {
        var j :| j in done && key' == KeyNameInFolder(j, name);
        assert j in done + {k};
      }
    }
  }

  /**
   * `MakeFolder`: with renaming, every control `k` of `spec` reappears under
   * `k_name` with the same value, nothing else appears, and no two controls
   * merge; without renaming the spec is passed on as it is.
   */
  method MakeFolder<V>(name: string, spec: map<string, V>, addFolderNameToKeys: bool, collapsed: bool)
    returns (f: Folder<V>)
    ensures f.collapsed == collapsed
    ensures !addFolderNameToKeys ==> f.entries == spec
    ensures addFolderNameToKeys ==>
      && (forall k :: k in spec ==> KeyNameInFolder(k, name) in f.entries && f.entries[KeyNameInFolder(k, name)] == spec[k])
      && (forall key :: key in f.entries ==> exists k :: k in spec && key == KeyNameInFolder(k, name))
      && |f.entries| == |spec|
  {
    if !addFolderNameToKeys {
      return Folder(spec, collapsed);
    }
    var specUse := RenameKeys(name, spec);
    return Folder(specUse, collapsed);
  }

  /** The renaming loop of `MakeFolder`, over the keys of `spec` in any order. */
  method RenameKeys<V>(name: string, spec: map<string, V>) returns (specUse: map<string, V>)
    ensures RenamedSoFar(spec, name, spec.Keys, specUse) && |specUse| == |spec|
  {
    specUse := map[];
    var remaining := spec.Keys;
    while remaining != {}
      invariant remaining <= spec.Keys
      invariant RenamedSoFar(spec, name, spec.Keys - remaining, specUse)
      invariant |specUse| + |remaining| == |spec.Keys|
      decreases remaining
    {
      var k :| k in remaining;
      RenameOneMore(spec, name, spec.Keys - remaining, specUse, k);
      assert spec.Keys - remaining + {k} == spec.Keys - (remaining - {k});
      specUse := specUse[KeyNameInFolder(k, name) := spec[k]];
      remaining := remaining - {k};
    }
    assert spec.Keys - remaining == spec.Keys;
    assert |spec.Keys| == |spec|;
  }

  /** The fields a slider builds before `otherSpecs` is spread over them. */
  function SliderFields(onChange: nat, initialValue: SpecValue, min: real, max: real, step: Option<real>): Control {
    map["value" := initialValue, "onChange" := Handler(onChange), "min" := Number(min), "max" := Number(max),
        "step" := Number(step.GetOr((max - min) * 0.01))]
  }

  /**
   * `SliderControl`: the caller's extra fields win; every other field is the
   * slider's own, with `step` defaulting to one hundredth of the range.
   */
  function SliderControl(onChange: nat, initialValue: SpecValue, min: real, max: real, step: Option<real>,
                         otherSpecs: Option<Control>): (c: Control)
    ensures forall key :: key in otherSpecs.GetOr(map[]) ==> key in c && c[key] == otherSpecs.GetOr(map[])[key]
    ensures c.Keys == otherSpecs.GetOr(map[]).Keys + {"value", "onChange", "min", "max", "step"}
    ensures "value" !in otherSpecs.GetOr(map[]) ==> c["value"] == initialValue
    ensures "min" !in otherSpecs.GetOr(map[]) ==> c["min"] == Number(min)
    ensures "max" !in otherSpecs.GetOr(map[]) ==> c["max"] == Number(max)
    ensures "onChange" !in otherSpecs.GetOr(map[]) ==> c["onChange"] == Handler(onChange)
    ensures "step" !in otherSpecs.GetOr(map[]) ==>
      c["step"] == Number(if step.Some? then step.value else (max - min) / 100.0)
  {
    SliderFields(onChange, initialValue, min, max, step) + otherSpecs.GetOr(map[])
  }

  /**
   * With the default step, a hundred steps cover exactly the slider's range,
   * and the step is positive whenever the range is.
   */
  lemma DefaultStepSpansRange(onChange: nat, initialValue: SpecValue, min: real, max: real)
    requires min < max
    ensures var c := SliderControl(onChange, initialValue, min, max, None, None);
      c["step"].Number? && c["step"].number > 0.0 && min + 100.0 * c["step"].number == max
  {
  }

  /** `CheckboxControl`: the value defaults to false; extra fields win. */
  function CheckboxControl(onChange: nat, initialValue: Option<bool>, otherSpecs: Option<Control>): (c: Control)
    ensures forall key :: key in otherSpecs.GetOr(map[]) ==> key in c && c[key] == otherSpecs.GetOr(map[])[key]
    ensures c.Keys == otherSpecs.GetOr(map[]).Keys + {"value", "onChange"}
    ensures "value" !in otherSpecs.GetOr(map[]) ==>
      c["value"] == Flag(initialValue.Some? && initialValue.value)
    ensures "onChange" !in otherSpecs.GetOr(map[]) ==> c["onChange"] == Handler(onChange)
  {
    map["value" := Flag(initialValue.GetOr(false)), "onChange" := Handler(onChange)] + otherSpecs.GetOr(map[])
  }

  /** `SelectionControl`: value, options and callback, with extra fields winning. */
  function SelectionControl(onChange: nat, options: seq<string>, initialValue: string, otherSpecs: Option<Control>): (c: Control)
    ensures forall key :: key in otherSpecs.GetOr(map[]) ==> key in c && c[key] == otherSpecs.GetOr(map[])[key]
    ensures c.Keys == otherSpecs.GetOr(map[]).Keys + {"value", "options", "onChange"}
    ensures "value" !in otherSpecs.GetOr(map[]) ==> c["value"] == Text(initialValue)
    ensures "options" !in otherSpecs.GetOr(map[]) ==> c["options"] == Choices(options)
    ensures "onChange" !in otherSpecs.GetOr(map[]) ==> c["onChange"] == Handler(onChange)
  {
    map["value" := Text(initialValue), "options" := Choices(options), "onChange" := Handler(onChange)]
      + otherSpecs.GetOr(map[])
  }
}
