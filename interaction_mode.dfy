// Interaction modes (anigraph/interaction/AInteractionMode.ts). A mode groups
// the interactions (keyboard, mouse, drag, ...) that a controller uses
// together; activating the mode activates all of them. The helper
// `SetInteractionCallbacks` copies a dictionary of callbacks onto an owner.

module InteractionModes {
  import opened Wrappers

  /** Identifies the controller that owns a mode and, through it, its interactions. */
  type OwnerId = nat

  /** The callback slots of an owner of interaction callbacks. */
  datatype CallbackName =
    | OnKeyDown | OnKeyUp | OnMouseMove | OnWheelMove | OnDragStart | OnDragMove | OnDragEnd
    | OnClick | OnRightClick | AfterActivate | AfterDeactivate | BeforeActivate | BeforeDeactivate
    | Dispose

  /**
   * A callback, named by an identifier, and the object its `this` is bound
   * to, if any.
   */
  datatype Callback = Callback(fn: nat, boundTo: Option<OwnerId>)

  /**
   * `callback.bind(target)`. Binding an already bound function does not
   * change what its `this` is.
   */
  function Bind(c: Callback, target: OwnerId): (r: Callback)
    ensures r.fn == c.fn && r.boundTo.Some?
    ensures c.boundTo.Some? ==> r == c
    ensures c.boundTo.None? ==> r.boundTo == Some(target)
  {
    if c.boundTo.Some? then c else c.(boundTo := Some(target))
  }

  /**
   * What the owner ends up with in slot `name` when it is given `c`:
   * `c` itself, bound to the owner when `bind` is set.
   */
  function Installed(c: Callback, bind: bool, target: OwnerId): Callback {
    if bind then Bind(c, target) else c
  }

  /** Whether `given` has slot `name` with a truthy callback in it. */
  predicate Provides(given: map<CallbackName, Option<Callback>>, name: CallbackName) {
    name in given && given[name].Some?
  }

  /** The owner's slots after one block of `SetInteractionCallbacks`, the one for `name`. */
  function CopyOne(slots: map<CallbackName, Callback>, given: map<CallbackName, Option<Callback>>,
                   name: CallbackName, bind: bool, target: OwnerId): map<CallbackName, Callback>
  {
    if Provides(given, name) then slots[name := Installed(given[name].value, bind, target)] else slots
  }

  /** An object with interaction callback slots (a controller, a mode, ...). */
  class CallbackOwner {
    const id: OwnerId
    var slots: map<CallbackName, Callback>

    constructor(id: OwnerId)
      ensures this.id == id && slots == map[]
    {
      this.id := id;
      slots := map[];
    }
  }

  /**
   * `slots` is what an owner that had `before` holds once the slots in
   * `done` have been processed: each of those given a truthy callback holds
   * it, every other slot is as it was.
   */
  ghost predicate Agrees(slots: map<CallbackName, Callback>, before: map<CallbackName, Callback>,
                         given: map<CallbackName, Option<Callback>>, done: set<CallbackName>,
                         bind: bool, target: OwnerId)
  {
    && (forall n :: n in done && Provides(given, n) ==> n in slots && slots[n] == Installed(given[n].value, bind, target))
    && (forall n :: !(n in done && Provides(given, n)) ==> (n in slots <==> n in before))
    && (forall n :: !(n in done && Provides(given, n)) && n in before ==> slots[n] == before[n])
  }

  /** Processing one more slot extends the processed set by that slot. */
  lemma CopyStep(slots: map<CallbackName, Callback>, before: map<CallbackName, Callback>,
                 given: map<CallbackName, Option<Callback>>, done: set<CallbackName>,
                 name: CallbackName, bind: bool, target: OwnerId)
    requires Agrees(slots, before, given, done, bind, target)
    ensures Agrees(CopyOne(slots, given, name, bind, target), before, given, done + {name}, bind, target)
  {
  }

  /** One block of `SetInteractionCallbacks`: copy slot `name` if it is given, binding it if asked. */
  method CopyCallback(owner: CallbackOwner, given: map<CallbackName, Option<Callback>>,
                      name: CallbackName, bind: bool,
                      ghost before: map<CallbackName, Callback>, ghost done: set<CallbackName>)
    requires Agrees(owner.slots, before, given, done, bind, owner.id)
    modifies owner`slots
    ensures owner.slots == CopyOne(old(owner.slots), given, name, bind, owner.id)
    ensures Agrees(owner.slots, before, given, done + {name}, bind, owner.id)
  {
    CopyStep(owner.slots, before, given, done, name, bind, owner.id);
    if name in given && given[name].Some? {
      owner.slots := owner.slots[name := given[name].value];
      if bind {
        owner.slots := owner.slots[name := Bind(owner.slots[name], owner.id)];
      }
    }
  }

  /**
   * `SetInteractionCallbacks`: copy every callback that is present and
   * truthy, in the source's slot order; the owner's other slots are untouched.
   */
  method SetInteractionCallbacks(owner: CallbackOwner, given: map<CallbackName, Option<Callback>>, bind: bool)
    modifies owner`slots
    ensures forall n :: Provides(given, n) ==>
      n in owner.slots && owner.slots[n] == Installed(given[n].value, bind, owner.id)
    ensures forall n :: !Provides(given, n) ==> (n in owner.slots <==> n in old(owner.slots))
    ensures forall n :: !Provides(given, n) && n in old(owner.slots) ==> owner.slots[n] == old(owner.slots)[n]
  {
    ghost var s0 := owner.slots;
    ghost var done: set<CallbackName> := {};
    CopyCallback(owner, given, OnKeyDown, bind, s0, done);
    done := done + {OnKeyDown};
    CopyCallback(owner, given, OnKeyUp, bind, s0, done);
    done := done + {OnKeyUp};
    CopyCallback(owner, given, OnMouseMove, bind, s0, done);
    done := done + {OnMouseMove};
    CopyCallback(owner, given, OnWheelMove, bind, s0, done);
    done := done + {OnWheelMove};
    CopyCallback(owner, given, OnDragStart, bind, s0, done);
    done := done + {OnDragStart};
    CopyCallback(owner, given, OnDragMove, bind, s0, done);
    done := done + {OnDragMove};
    CopyCallback(owner, given, OnDragEnd, bind, s0, done);
    done := done + {OnDragEnd};
    CopyCallback(owner, given, OnClick, bind, s0, done);
    done := done + {OnClick};
    CopyCallback(owner, given, OnRightClick, bind, s0, done);
    done := done + {OnRightClick};
    CopyCallback(owner, given, AfterActivate, bind, s0, done);
    done := done + {AfterActivate};
    CopyCallback(owner, given, AfterDeactivate, bind, s0, done);
    done := done + {AfterDeactivate};
    CopyCallback(owner, given, BeforeActivate, bind, s0, done);
    done := done + {BeforeActivate};
    CopyCallback(owner, given, BeforeDeactivate, bind, s0, done);
    done := done + {BeforeDeactivate};
    CopyCallback(owner, given, Dispose, bind, s0, done);
    done := done + {Dispose};
    forall n ensures n in done {
      match n
      case OnKeyDown =>
      case OnKeyUp =>
      case OnMouseMove =>
      case OnWheelMove =>
      case OnDragStart =>
      case OnDragMove =>
      case OnDragEnd =>
      case OnClick =>
      case OnRightClick =>
      case AfterActivate =>
      case AfterDeactivate =>
      case BeforeActivate =>
      case BeforeDeactivate =>
      case Dispose =>
    }
  }

  /**
   * An interaction of a mode. Only what the mode reads and writes is kept:
   * whether it is active, its owner, and, for a keyboard interaction, which
   * keys are down.
   */
  class Interaction {
    var active: bool
    var owner: Option<OwnerId>
    const isKeyboard: bool
    var keysDownState: map<string, bool>

    constructor(isKeyboard: bool)
      ensures !active && owner.None? && this.isKeyboard == isKeyboard && keysDownState == map[]
    {
      active := false;
      owner := None;
      this.isKeyboard := isKeyboard;
      keysDownState := map[];
    }

    method Activate()
      modifies this`active
      ensures active
    {
      active := true;
    }

    method Deactivate()
      modifies this`active
      ensures !active
    {
      active := false;
    }
  }

  /** The keyboard interactions of `xs`, in their order. */
  function KeyboardOnly(xs: seq<Interaction>): (r: seq<Interaction>)
    ensures forall k :: 0 <= k < |r| ==> r[k] in xs && r[k].isKeyboard
    ensures forall k :: 0 <= k < |xs| && xs[k].isKeyboard ==> xs[k] in r
    ensures |r| <= |xs|
  {
    if xs == [] then []
    else (if xs[0].isKeyboard then [xs[0]] else []) + KeyboardOnly(xs[1..])
  }

  /**
   * The first keyboard interaction of `xs` heads its keyboard list, and the
   * list is empty exactly when `xs` has none.
   */
  lemma {:induction false} KeyboardOnlyFirst(xs: seq<Interaction>, k: int)
    requires 0 <= k < |xs| && xs[k].isKeyboard
    requires forall j :: 0 <= j < k ==> !xs[j].isKeyboard
    ensures KeyboardOnly(xs) != [] && KeyboardOnly(xs)[0] == xs[k]
    decreases k
  {
    if k > 0 {
      assert xs[1..][k - 1] == xs[k];
      KeyboardOnlyFirst(xs[1..], k - 1);
    }
  }

  /** Extending the list by one interaction extends its keyboard list by at most that one. */
  lemma {:induction false} KeyboardOnlySnoc(xs: seq<Interaction>, x: Interaction)
    ensures KeyboardOnly(xs + [x]) == KeyboardOnly(xs) + (if x.isKeyboard then [x] else [])
    decreases |xs|
  {
    var tail := if x.isKeyboard then [x] else [];
    if xs == [] {
      assert xs + [x] == [x];
      assert KeyboardOnly([x]) == tail + KeyboardOnly([]);
    } else {
      assert (xs + [x])[0] == xs[0] && (xs + [x])[1..] == xs[1..] + [x];
      var head := if xs[0].isKeyboard then [xs[0]] else [];
      KeyboardOnlySnoc(xs[1..], x);
      calc {
        KeyboardOnly(xs + [x]);
        head + KeyboardOnly(xs[1..] + [x]);
        head + (KeyboardOnly(xs[1..]) + tail);
        (head + KeyboardOnly(xs[1..])) + tail;
      }
    }
  }

  /** `AInteractionMode`, with `V` the type of the values kept in its mode state. */
  class InteractionMode<V> {
    const name: string
    /** The controller using the mode, if one was given. */
    const owner: Option<OwnerId>
    var interactions: seq<Interaction>
    var active: bool
    var modeState: map<string, V>

    constructor(name: string, owner: Option<OwnerId>)
      ensures this.name == name && this.owner == owner
      ensures interactions == [] && !active && modeState == map[]
    {
      this.name := name;
      this.owner := owner;
      interactions := [];
      active := false;
      modeState := map[];
    }

    /** `getModeState`: the stored value, or none (`undefined`) for a name never set. */
    function GetModeState(key: string): Option<V>
      reads this
    {
      if key in modeState then Some(modeState[key]) else None
    }

    /** `setModeState`: a later `getModeState` of that name returns the value; other names are unaffected. */
    method SetModeState(key: string, value: V)
      modifies this`modeState
      ensures GetModeState(key) == Some(value)
      ensures forall other :: other != key ==> GetModeState(other) == old(GetModeState(other))
      ensures modeState == old(modeState)[key := value]
    {
      modeState := modeState[key := value];
    }

    /** `clearModeState`: every name reads as unset afterwards. */
    method ClearModeState()
      modifies this`modeState
      ensures forall key :: GetModeState(key) == None
      ensures modeState == map[]
    {
      modeState := map[];
    }

    /** `getKeyboardInteractions`: the keyboard interactions, in the order they were added. */
    method GetKeyboardInteractions() returns (r: seq<Interaction>)
      ensures r == KeyboardOnly(interactions)
    {
      r := [];
      for k := 0 to |interactions|
        invariant r == KeyboardOnly(interactions[..k])
      {
        KeyboardOnlySnoc(interactions[..k], interactions[k]);
        assert interactions[..k + 1] == interactions[..k] + [interactions[k]];
        if interactions[k].isKeyboard {
          r := r + [interactions[k]];
        }
      }
      assert interactions[..|interactions|] == interactions;
    }

    /**
     * `getKeyDownState`: the keys-down state of the first keyboard
     * interaction, or an empty state when the mode has none.
     */
    method GetKeyDownState() returns (r: map<string, bool>)
      ensures (forall k :: 0 <= k < |interactions| ==> !interactions[k].isKeyboard) ==> r == map[]
      ensures forall k :: 0 <= k < |interactions| && interactions[k].isKeyboard
                && (forall j :: 0 <= j < k ==> !interactions[j].isKeyboard)
                ==> r == interactions[k].keysDownState
    {
      var keyboard := GetKeyboardInteractions();
      if |keyboard| == 1 {
        r := keyboard[0].keysDownState;
      } else if |keyboard| > 1 {
        r := keyboard[0].keysDownState;
      } else {
        r := map[];
      }
      forall k | 0 <= k < |interactions| && interactions[k].isKeyboard
                 && (forall j :: 0 <= j < k ==> !interactions[j].isKeyboard)
        ensures r == interactions[k].keysDownState
      {
        KeyboardOnlyFirst(interactions, k);
      }
    }

    /**
     * `addInteraction`: the interaction is appended and brought to the
     * mode's active state; if it already had an owner that is an error,
     * raised after the append, and the owner is kept. Otherwise it takes the
     * mode's owner.
     */
    method AddInteraction(interaction: Interaction) returns (res: Result<(), string>)
      modifies this`interactions, interaction`active, interaction`owner
      ensures interactions == old(interactions) + [interaction]
      ensures interaction.active == active
      ensures res.Err? <==> old(interaction.owner).Some?
      ensures res.Err? ==> interaction.owner == old(interaction.owner)
      ensures res.Ok? ==> interaction.owner == owner
    {
      interactions := interactions + [interaction];
      if active && !interaction.active {
        interaction.Activate();
      }
      if !active && interaction.active {
        interaction.Deactivate();
      }
      if interaction.owner.Some? {
        return Err("interaction already has owner!");
      }
      interaction.owner := owner;
      res := Ok(());
    }

    /** `activate`: every interaction of the mode is active, then the mode is. */
    method Activate()
      modifies this`active, interactions
      ensures active
      ensures forall i :: i in interactions ==> i.active
      ensures forall i :: i in interactions ==> i.owner == old(i.owner) && i.keysDownState == old(i.keysDownState)
      ensures modeState == old(modeState)
    {
      for k := 0 to |interactions|
        invariant forall j :: 0 <= j < k ==> interactions[j].active
        invariant forall i :: i in interactions ==> i.owner == old(i.owner) && i.keysDownState == old(i.keysDownState)
      {
        interactions[k].Activate();
      }
      active := true;
    }

    /**
     * `deactivate`: every interaction of the mode is inactive, the mode
     * state is cleared, then the mode is inactive.
     */
    method Deactivate()
      modifies this`active, this`modeState, interactions
      ensures !active
      ensures forall i :: i in interactions ==> !i.active
      ensures forall i :: i in interactions ==> i.owner == old(i.owner) && i.keysDownState == old(i.keysDownState)
      ensures modeState == map[]
    {
      for k := 0 to |interactions|
        invariant forall j :: 0 <= j < k ==> !interactions[j].active
        invariant forall i :: i in interactions ==> i.owner == old(i.owner) && i.keysDownState == old(i.keysDownState)
      {
        interactions[k].Deactivate();
      }
      ClearModeState();
      active := false;
    }
  }
}
