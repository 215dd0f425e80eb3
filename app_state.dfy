// The application state (anigraph/appstate/AAppState.ts): a dictionary of
// named state values whose every change is signalled under an event key
// derived from the name, and the dictionary of control-panel specs built
// from it. One app state is registered per program.

module AppStates {
  import opened Wrappers
  import opened GuiSpecs

  /** Key under which the app keeps the control panel's key. */
  const GuiKeyIndex: string := "GUI_KEY"

  /** `GetEventKeyForName`: the event signalled when state `name` changes. */
  function EventKeyForName(name: string): (key: string)
    ensures |key| == |name| + 23
    ensures key[..10] == "Parameter_" && key[10..10 + |name|] == name && key[10 + |name|..] == "_update_event"
  {
    "Parameter_" + name + "_update_event"
  }

  /** Different state names are signalled under different event keys. */
  lemma {:induction false} EventKeyInjective(a: string, b: string)
    requires a != b
    ensures EventKeyForName(a) != EventKeyForName(b)
  {
  }

  /** The decimal digit `d`. */
  function Digit(d: nat): (c: char)
    requires d < 10
    ensures '0' <= c <= '9'
  {
    (48 + d) as char
  }

  /** `${n}` for a natural number: its decimal digits, without leading zeros. */
  function DecimalString(n: nat): (s: string)
    ensures 1 <= |s|
    ensures n < 10 <==> |s| == 1
    decreases n
  {
    if n < 10 then [Digit(n)] else DecimalString(n / 10) + [Digit(n % 10)]
  }

  /** Different numbers are written differently. */
  lemma {:induction false} DecimalStringInjective(a: nat, b: nat)
    requires DecimalString(a) == DecimalString(b)
    ensures a == b
    decreases a
  {
    var s := DecimalString(a);
    if a < 10 {
      assert Digit(a) == s[0] == Digit(b);
    } else {
      assert s[|s| - 1] == Digit(a % 10) == Digit(b % 10);
      assert s[..|s| - 1] == DecimalString(a / 10) == DecimalString(b / 10);
      DecimalStringInjective(a / 10, b / 10);
    }
  }

  /** The candidate `name + ntries` tried for the `ntries`-th time. */
  function Numbered(name: string, ntries: nat): string {
    name + DecimalString(ntries)
  }

  /** Different counters give different candidates. */
  lemma NumberedInjective(name: string, i: nat, j: nat)
    requires i != j
    ensures Numbered(name, i) != Numbered(name, j)
  {
    if Numbered(name, i) == Numbered(name, j) {
      assert DecimalString(i) == Numbered(name, i)[|name|..];
      assert DecimalString(j) == Numbered(name, j)[|name|..];
      DecimalStringInjective(i, j);
    }
  }

  /**
   * When the candidates 1..n are all taken, there are at least n taken
   * names: the search for a free one cannot go on forever.
   */
  lemma {:induction false} TakenBound(name: string, taken: set<string>, n: nat)
    requires forall j :: 1 <= j <= n ==> Numbered(name, j) in taken
    ensures n <= |taken|
    decreases n
  {
    if n > 0 {
      var rest := taken - {Numbered(name, n)};
      forall j | 1 <= j <= n - 1
        ensures Numbered(name, j) in rest
      {
        NumberedInjective(name, j, n);
      }
      TakenBound(name, rest, n - 1);
    }
  }

  /**
   * `CreateControlPanelSliderSpec`, with `onChange` standing for the callback
   * that sets state `stateName`: an absent `min` defaults to the smaller of
   * the initial value and 0, an absent `max` to the larger of it and 1.
   */
  function SliderSpec(onChange: nat, initialValue: real, min: Option<real>, max: Option<real>,
                      step: Option<real>, otherSpecs: Option<Control>): (c: Control)
    ensures c.Keys == otherSpecs.GetOr(map[]).Keys + {"value", "onChange", "min", "max", "step"}
    ensures "value" !in otherSpecs.GetOr(map[]) ==> c["value"] == Number(initialValue)
    ensures "min" !in otherSpecs.GetOr(map[]) ==>
      c["min"] == Number(if min.Some? then min.value else if initialValue < 0.0 then initialValue else 0.0)
    ensures "max" !in otherSpecs.GetOr(map[]) ==>
      c["max"] == Number(if max.Some? then max.value else if initialValue > 1.0 then initialValue else 1.0)
    ensures forall key :: key in otherSpecs.GetOr(map[]) ==> key in c && c[key] == otherSpecs.GetOr(map[])[key]
  {
    var lo := if initialValue < 0.0 then initialValue else 0.0;
    var hi := if initialValue > 1.0 then initialValue else 1.0;
    SliderControl(onChange, Number(initialValue), min.GetOr(lo), max.GetOr(hi), step, otherSpecs)
  }

  /**
   * With the default range the initial value always lies on the slider,
   * the range covers [0, 1], and the default step is at least 0.01.
   */
  lemma SliderDefaultsBracketInitial(onChange: nat, initialValue: real)
    ensures var c := SliderSpec(onChange, initialValue, None, None, None, None);
      && c["min"].Number? && c["max"].Number? && c["step"].Number?
      && c["min"].number <= 0.0 && 1.0 <= c["max"].number
      && c["min"].number <= initialValue <= c["max"].number
      && c["step"].number >= 0.01
  {
    var c := SliderSpec(onChange, initialValue, None, None, None, None);
    assert c["max"].number - c["min"].number >= 1.0;
  }

  /** What the app signals. */
  datatype AppEvent =
    | StateChanged(eventKey: string, value: SpecValue)
    | ControlPanelUpdate

  /** An entry of the control panel: one control, or a folder of them. */
  datatype PanelEntry = Single(control: Control) | Group(folder: Folder<Control>)

  class AppState {
    var stateValues: map<string, SpecValue>
    var controlSpecs: map<string, PanelEntry>
    var events: seq<AppEvent>

    /** A new app state holds only the control panel's key, `guiKey` (a fresh uuid). */
    constructor(guiKey: string)
      ensures stateValues == map[GuiKeyIndex := Text(guiKey)]
      ensures controlSpecs == map[]
      ensures events == [StateChanged(EventKeyForName(GuiKeyIndex), Text(guiKey))]
    {
      stateValues := map[];
      controlSpecs := map[];
      events := [];
      new;
      SetState(GuiKeyIndex, Text(guiKey));
    }

    /** `getState`: the stored value, or none (`undefined`) for a name never set. */
    function GetState(key: string): Option<SpecValue>
      reads this
    {
      if key in stateValues then Some(stateValues[key]) else None
    }

    /**
     * `setState`: a later `getState` of that name returns the value, other
     * names are unaffected, and the change is signalled under the name's
     * event key.
     */
    method SetState(name: string, value: SpecValue)
      modifies this`stateValues, this`events
      ensures GetState(name) == Some(value)
      ensures forall other :: other != name ==> GetState(other) == old(GetState(other))
      ensures stateValues == old(stateValues)[name := value]
      ensures events == old(events) + [StateChanged(EventKeyForName(name), value)]
    {
      stateValues := stateValues[name := value];
      events := events + [StateChanged(EventKeyForName(name), value)];
    }

    /** `setGUIControlSpecKey`: put the control under `name`, then ask the panel to update. */
    method SetGuiControlSpecKey(name: string, spec: Control)
      modifies this`controlSpecs, this`events
      ensures controlSpecs == old(controlSpecs)[name := Single(spec)]
      ensures events == old(events) + [ControlPanelUpdate]
    {
      controlSpecs := controlSpecs[name := Single(spec)];
      events := events + [ControlPanelUpdate];
    }

    /** `addSliderControl`. */
    method AddSliderControl(name: string, onChange: nat, initialValue: real, min: Option<real>,
                            max: Option<real>, step: Option<real>)
      modifies this`controlSpecs, this`events
      ensures controlSpecs == old(controlSpecs)[name := Single(SliderSpec(onChange, initialValue, min, max, step, None))]
      ensures events == old(events) + [ControlPanelUpdate]
    {
      SetGuiControlSpecKey(name, SliderSpec(onChange, initialValue, min, max, step, None));
    }

    /**
     * `addSliderIfMissing`: a slider, starting at 1 unless told otherwise, is
     * added only when no state value of that name exists; the state values
     * themselves are never touched.
     */
    method AddSliderIfMissing(name: string, onChange: nat, initialValue: Option<real>, min: Option<real>,
                              max: Option<real>, step: Option<real>)
      modifies this`controlSpecs, this`events
      ensures old(GetState(name)).Some? ==> controlSpecs == old(controlSpecs) && events == old(events)
      ensures old(GetState(name)).None? ==>
        && controlSpecs == old(controlSpecs)[name := Single(SliderSpec(onChange, initialValue.GetOr(1.0), min, max, step, None))]
        && events == old(events) + [ControlPanelUpdate]
    {
      if GetState(name).None? {
        AddSliderControl(name, onChange, initialValue.GetOr(1.0), min, max, step);
      }
    }

    /** `addControlSpec`: merge the given entries in; on a shared name the given entry wins. */
    method AddControlSpec(controlSpec: map<string, PanelEntry>)
      modifies this`controlSpecs
      ensures forall k :: k in controlSpec ==> k in controlSpecs && controlSpecs[k] == controlSpec[k]
      ensures forall k :: k !in controlSpec ==> (k in controlSpecs <==> k in old(controlSpecs))
      ensures forall k :: k !in controlSpec && k in old(controlSpecs) ==> controlSpecs[k] == old(controlSpecs)[k]
    {
      controlSpecs := controlSpecs + controlSpec;
    }

    /**
     * `_GetUniqueFolderName`: `name` itself when it is free, otherwise
     * `name` followed by the smallest counter from 1 up that gives a free name.
     */
    method GetUniqueFolderName(name: string) returns (r: string)
      ensures r !in controlSpecs
      ensures name !in controlSpecs ==> r == name
      ensures name in controlSpecs ==>
        exists k: nat :: (1 <= k && r == Numbered(name, k) && forall j :: 1 <= j < k ==> Numbered(name, j) in controlSpecs)
    {
      if name !in controlSpecs {
        return name;
      }
      var ntries: nat := 1;
      r := Numbered(name, ntries);
      while r in controlSpecs
        invariant 1 <= ntries && r == Numbered(name, ntries)
        invariant forall j :: 1 <= j < ntries ==> Numbered(name, j) in controlSpecs
        decreases |controlSpecs.Keys| - ntries
      {
        TakenBound(name, controlSpecs.Keys, ntries);
        ntries := ntries + 1;
        r := Numbered(name, ntries);
      }
    }

    /** `addControlSpecGroup`: put the folder built by `MakeFolder` under `name`, then update the panel. */
    method AddControlSpecGroup(name: string, spec: map<string, Control>, addFolderNameToKeys: bool, collapsed: bool)
      modifies this`controlSpecs, this`events
      ensures name in controlSpecs && controlSpecs[name].Group? && controlSpecs[name].folder.collapsed == collapsed
      ensures forall k :: k != name ==> (k in controlSpecs <==> k in old(controlSpecs))
      ensures forall k :: k != name && k in old(controlSpecs) ==> controlSpecs[k] == old(controlSpecs)[k]
      ensures var entries := controlSpecs[name].folder.entries;
        && (!addFolderNameToKeys ==> entries == spec)
        && (addFolderNameToKeys ==> |entries| == |spec|)
        && (addFolderNameToKeys ==>
              forall k :: k in spec ==> KeyNameInFolder(k, name) in entries && entries[KeyNameInFolder(k, name)] == spec[k])
      ensures events == old(events) + [ControlPanelUpdate]
    {
      var folder := MakeFolder(name, spec, addFolderNameToKeys, collapsed);
      controlSpecs := controlSpecs[name := Group(folder)];
      events := events + [ControlPanelUpdate];
    }
  }

  /** The program-wide slot holding the registered app state. */
  class AppRegistry {
    var current: Option<AppState>

    constructor()
      ensures current == None
    {
      current := None;
    }

    /** `SetAppState`: registering twice is an error and keeps the first registration. */
    method SetAppState(appState: AppState) returns (r: Result<AppState, string>)
      modifies this`current
      ensures old(current).Some? ==> r.Err? && current == old(current)
      ensures old(current).None? ==> r == Ok(appState) && current == Some(appState)
    {
      if current.Some? {
        return Err("Already set the app state");
      }
      current := Some(appState);
      r := Ok(appState);
    }

    /** `GetAAppState`: the registered app state; an error when none is registered. */
    method GetAppState() returns (r: Result<AppState, string>)
      ensures r.Err? <==> current.None?
      ensures r.Ok? ==> current == Some(r.value)
    {
      if current.None? {
        return Err("No App State!");
      }
      r := Ok(current.value);
    }
  }
}
