/**
 * The editor `editor_input_system` (src/main.rs): one frame of keyboard and
 * mouse input changes the selected-body settings, the collision switch and,
 * through deferred commands, the body store. The cursor arrives already
 * converted to world coordinates; the camera reset and the logging are not
 * modelled (see README).
 */
module Editor {
  import opened Wrappers
  import opened Bodies
  import Gravity
  import Collision

  /** Size change per frame while Z or X is held. */
  const SIZE_SPEED: real := 0.2

  /** Density change per frame while C or V is held. */
  const DENSITY_SPEED: real := 0.1

  /** The floor under both settings after an adjustment. */
  const MIN_SETTING: real := 1.0

  /** The settings R restores. */
  const RESET_SIZE: real := 50.0
  const RESET_DENSITY: real := 1.0

  /** The drag from press to release, divided by this, is the new body's velocity. */
  const DRAG_DIVISOR: real := 50.0

  /** The value of the resource `SelectedBodyState`. */
  datatype Selection = Selection(
    posSelected: bool,
    x: real, y: real,
    vx: real, vy: real,
    size: real,
    density: real)

  /** The derived Default: no position selected and every number zero, size and density included. */
  const DEFAULT_SELECTION: Selection := Selection(false, 0.0, 0.0, 0.0, 0.0, 0.0, 0.0)

  /**
   * One frame of input: R, E, the left button's press and release edges, the
   * cursor in world coordinates (None outside the window) and whether Z, X, C
   * and V are held.
   */
  datatype Input = Input(
    reset: bool,
    toggle: bool,
    press: bool,
    release: bool,
    cursor: Option<(real, real)>,
    sizeUp: bool,
    sizeDown: bool,
    densityDown: bool,
    densityUp: bool)

  /** Settings a spawned body can be built from with a positive mass. */
  predicate Ready(sel: Selection) {
    sel.size >= MIN_SETTING && sel.density >= MIN_SETTING
  }

  /** The clamp after each adjustment: the smaller of v and 1.0 is replaced by 1.0. */
  function Clamped(v: real): (r: real)
    ensures r >= MIN_SETTING && r >= v
    ensures r == v || r == MIN_SETTING
  {
    if v < MIN_SETTING then MIN_SETTING else v
  }

  /** One held key: add delta and clamp; an unheld key changes nothing. */
  function Nudge(v: real, held: bool, delta: real): (r: real)
    ensures held ==> r >= MIN_SETTING
    ensures !held ==> r == v
    ensures v >= MIN_SETTING && delta >= 0.0 ==> r >= v
  {
    if held then Clamped(v + delta) else v
  }

  /** The size after Z (grow) and then X (shrink): at least 1.0 when either was held. */
  function SizeKeys(size: real, grow: bool, shrink: bool): (r: real)
    ensures grow || shrink ==> r >= MIN_SETTING
    ensures !grow && !shrink ==> r == size
    ensures size >= MIN_SETTING ==> r >= MIN_SETTING
  {
    Nudge(Nudge(size, grow, SIZE_SPEED), shrink, -SIZE_SPEED)
  }

  /** The density after C (thin) and then V (thicken): at least 1.0 when either was held. */
  function DensityKeys(density: real, thin: bool, thicken: bool): (r: real)
    ensures thin || thicken ==> r >= MIN_SETTING
    ensures !thin && !thicken ==> r == density
    ensures density >= MIN_SETTING ==> r >= MIN_SETTING
  {
    Nudge(Nudge(density, thin, -DENSITY_SPEED), thicken, DENSITY_SPEED)
  }

  /** R: forget the pressed position and restore size 50 and density 1; nothing else changes. */
  function Reset(sel: Selection): (r: Selection)
    ensures Ready(r) && !r.posSelected
    ensures r.size == RESET_SIZE && r.density == RESET_DENSITY
    ensures r.(posSelected := sel.posSelected, size := sel.size, density := sel.density) == sel
  {
    sel.(posSelected := false, size := RESET_SIZE, density := RESET_DENSITY)
  }

  /** The corrected starting settings: those R restores. */
  const INITIAL_SELECTION: Selection := Reset(DEFAULT_SELECTION)

  /** What a frame leaves behind: the new settings and the body it spawned, if any. */
  datatype Frame = Frame(selection: Selection, spawned: Option<Body>)

  /** The reset branch. */
  function AfterReset(sel: Selection, input: Input): Selection {
    if input.reset then Reset(sel) else sel
  }

  /** The press branch: remember the cursor as the start position. */
  function AfterPress(sel: Selection, input: Input): Selection {
    if input.press && input.cursor.Some? then
      sel.(posSelected := true, x := input.cursor.value.0, y := input.cursor.value.1)
    else sel
  }

  /** The body a release at `end` spawns from the settings `sel`. */
  function Launched(sel: Selection, end: (real, real)): (b: Body)
    ensures b.x == sel.x && b.y == sel.y && b.size == sel.size && b.density == sel.density
    ensures b.vx * DRAG_DIVISOR == end.0 - sel.x && b.vy * DRAG_DIVISOR == end.1 - sel.y
    ensures Resting(b)
    ensures Ready(sel) ==> b.mass >= (4.0 / 3.0) * PI
  {
    NewBody(sel.x, sel.y, (end.0 - sel.x) / DRAG_DIVISOR, (end.1 - sel.y) / DRAG_DIVISOR, sel.density, sel.size)
  }

  /** The release branch: with a start position and the cursor in the window, spawn and forget the start. */
  function AfterRelease(sel: Selection, input: Input): Frame {
    if input.release && input.cursor.Some? && sel.posSelected then
      Frame(sel.(posSelected := false), Some(Launched(sel, input.cursor.value)))
    else Frame(sel, None)
  }

  /** The adjustment branches. */
  function AfterKeys(sel: Selection, input: Input): Selection {
    sel.(size := SizeKeys(sel.size, input.sizeUp, input.sizeDown),
         density := DensityKeys(sel.density, input.densityDown, input.densityUp))
  }

  /**
   * The whole frame, branch by branch in the source's order. A spawn uses the
   * settings as they are before this frame's adjustment.
   */
  function Edit(sel: Selection, input: Input): (r: Frame)
    ensures Ready(sel) || input.reset ==> Ready(r.selection)
    ensures r.spawned.Some? ==> input.release && input.cursor.Some?
    ensures r.spawned.Some? ==> !r.selection.posSelected
    ensures !sel.posSelected && !input.press ==> r.spawned.None?
  {
    var released := AfterRelease(AfterPress(AfterReset(sel, input), input), input);
    Frame(AfterKeys(released.selection, input), released.spawned)
  }

  /** The store once the frame's commands are applied: R despawns every existing body, a release appends one. */
  function Commands(bodies: seq<Body>, input: Input, spawned: Option<Body>): (r: seq<Body>)
    ensures |r| == (if input.reset then 0 else |bodies|) + (if spawned.Some? then 1 else 0)
    ensures !input.reset ==> r[..|bodies|] == bodies
    ensures spawned.Some? ==> r[|r| - 1] == spawned.value
  {
    (if input.reset then [] else bodies) + (if spawned.Some? then [spawned.value] else [])
  }

  /** Settings and store after the frames, in order. */
  function Run(sel: Selection, bodies: seq<Body>, frames: seq<Input>): (Selection, seq<Body>)
    decreases |frames|
  {
    if frames == [] then (sel, bodies)
    else
      var f := Edit(sel, frames[0]);
      Run(f.selection, Commands(bodies, frames[0], f.spawned), frames[1..])
  }

  /** Every body of the store has positive mass. */
  predicate AllPositive(s: seq<Body>) {
    forall k :: 0 <= k < |s| ==> s[k].mass > 0.0
  }

  /** One frame from ready settings keeps them ready and adds only bodies of positive mass. */
  lemma FrameKeepsPositive(sel: Selection, bodies: seq<Body>, input: Input)
    requires Ready(sel) && AllPositive(bodies)
    ensures var f := Edit(sel, input);
      Ready(f.selection) && AllPositive(Commands(bodies, input, f.spawned))
  {
    var f := Edit(sel, input);
    var released := AfterRelease(AfterPress(AfterReset(sel, input), input), input);
    assert Ready(AfterPress(AfterReset(sel, input), input));
    assert f.spawned.Some? ==> f.spawned.value.mass > 0.0 by {
      if f.spawned.Some? {
        assert f.spawned.value.mass >= (4.0 / 3.0) * PI;
      }
    }
  }

  /**
   * From ready settings and a store of positive masses, any run of frames
   * leaves ready settings and a store the gravity solver may divide by.
   */
  lemma {:induction false} RunKeepsPositive(sel: Selection, bodies: seq<Body>, frames: seq<Input>)
    requires Ready(sel) && AllPositive(bodies)
    ensures Ready(Run(sel, bodies, frames).0)
    ensures AllPositive(Run(sel, bodies, frames).1)
    ensures Gravity.AllMassive(Run(sel, bodies, frames).1)
    decreases |frames|
  {
    if frames != [] {
      var f := Edit(sel, frames[0]);
      FrameKeepsPositive(sel, bodies, frames[0]);
      RunKeepsPositive(f.selection, Commands(bodies, frames[0], f.spawned), frames[1..]);
    }
  }

  /** Starting from the corrected settings and an empty world, the gravity solver never meets a zero mass. */
  lemma InitialRunStaysMassive(frames: seq<Input>)
    ensures Gravity.AllMassive(Run(INITIAL_SELECTION, [], frames).1)
  {
    RunKeepsPositive(INITIAL_SELECTION, [], frames);
  }

  /** Press at the origin, no keys. */
  const PRESS_AT_ORIGIN: Input := Input(false, false, true, false, Some((0.0, 0.0)), false, false, false, false)

  /** Release one unit to the right, no keys. */
  const RELEASE_TO_RIGHT: Input := Input(false, false, false, true, Some((1.0, 0.0)), false, false, false, false)

  /**
   * As written, the settings start at the derived Default: a press and a
   * release before any key spawns a body of size 0, density 0 and mass 0,
   * which the gravity solver would divide by.
   */
  lemma DefaultSpawnsMassless()
    ensures var r := Run(DEFAULT_SELECTION, [], [PRESS_AT_ORIGIN, RELEASE_TO_RIGHT]);
      |r.1| == 1 && r.1[0].mass == 0.0 && !Gravity.AllMassive(r.1)
  {
    var frames := [PRESS_AT_ORIGIN, RELEASE_TO_RIGHT];
    var first := Edit(DEFAULT_SELECTION, PRESS_AT_ORIGIN);
    assert first.spawned.None? && first.selection.posSelected;
    var second := Edit(first.selection, RELEASE_TO_RIGHT);
    assert second.spawned.Some? && second.spawned.value.mass == 0.0;
    var store := Commands([], PRESS_AT_ORIGIN, first.spawned);
    assert store == [];
    assert frames[1..][1..] == [];
    assert Run(DEFAULT_SELECTION, [], frames) == Run(first.selection, store, frames[1..]);
    assert Run(first.selection, store, frames[1..]) == (second.selection, [second.spawned.value]);
  }

  /** The resource `SelectedBodyState`. */
  class SelectedBodyState {
    var posSelected: bool
    var selectedX: real
    var selectedY: real
    var selectedVx: real
    var selectedVy: real
    var selectedSize: real
    var selectedDensity: real

    /** The fields as a value. */
    function Value(): Selection
      reads this
    {
      Selection(posSelected, selectedX, selectedY, selectedVx, selectedVy, selectedSize, selectedDensity)
    }

    /** The derived Default, as the source registers it. */
    constructor Default()
      ensures Value() == DEFAULT_SELECTION
    {
      posSelected := false;
      selectedX, selectedY := 0.0, 0.0;
      selectedVx, selectedVy := 0.0, 0.0;
      selectedSize, selectedDensity := 0.0, 0.0;
    }

    /** The corrected start: the settings R restores. */
    constructor Initial()
      ensures Value() == INITIAL_SELECTION && Ready(Value())
    {
      posSelected := false;
      selectedX, selectedY := 0.0, 0.0;
      selectedVx, selectedVy := 0.0, 0.0;
      selectedSize, selectedDensity := RESET_SIZE, RESET_DENSITY;
    }

    /** The R branch. */
    method ResetSettings()
      modifies this
      ensures Value() == Reset(old(Value()))
    {
      posSelected := false;
      selectedSize := RESET_SIZE;
      selectedDensity := RESET_DENSITY;
    }

    /** The press branch. */
    method Press(input: Input)
      modifies this
      ensures Value() == AfterPress(old(Value()), input)
    {
      if input.press && input.cursor.Some? {
        posSelected := true;
        selectedX := input.cursor.value.0;
        selectedY := input.cursor.value.1;
      }
    }

    /** The release branch: returns the body to spawn, if any. */
    method Release(input: Input) returns (spawned: Option<Body>)
      modifies this
      ensures Frame(Value(), spawned) == AfterRelease(old(Value()), input)
    {
      spawned := None;
      if input.release && input.cursor.Some? && posSelected {
        var end := input.cursor.value;
        var vx := (end.0 - selectedX) / DRAG_DIVISOR;
        var vy := (end.1 - selectedY) / DRAG_DIVISOR;
        spawned := Some(NewBody(selectedX, selectedY, vx, vy, selectedDensity, selectedSize));
        posSelected := false;
      }
    }

    /** The Z, X, C and V branches, each adding its step and clamping at 1.0. */
    method Adjust(input: Input)
      modifies this
      ensures Value() == AfterKeys(old(Value()), input)
    {
      if input.sizeUp {
        selectedSize := selectedSize + SIZE_SPEED;
        if selectedSize < MIN_SETTING {
          selectedSize := MIN_SETTING;
        }
      }
      if input.sizeDown {
        selectedSize := selectedSize - SIZE_SPEED;
        if selectedSize < MIN_SETTING {
          selectedSize := MIN_SETTING;
        }
      }
      if input.densityDown {
        selectedDensity := selectedDensity - DENSITY_SPEED;
        if selectedDensity < MIN_SETTING {
          selectedDensity := MIN_SETTING;
        }
      }
      if input.densityUp {
        selectedDensity := selectedDensity + DENSITY_SPEED;
        if selectedDensity < MIN_SETTING {
          selectedDensity := MIN_SETTING;
        }
      }
    }
  }

  /**
   * `editor_input_system` for one frame: updates the settings and the switch
   * in place and returns the store after the frame's spawn and despawn
   * commands have been applied.
   */
  method EditorInput(state: SelectedBodyState, switch: Collision.ElasticCollisionsEnabled, bodies: seq<Body>, input: Input)
    returns (next: seq<Body>)
    modifies state, switch
    ensures state.Value() == Edit(old(state.Value()), input).selection
    ensures switch.enabled == (old(switch.enabled) != input.toggle)
    ensures next == Commands(bodies, input, Edit(old(state.Value()), input).spawned)
  {
    if input.reset {
      state.ResetSettings();
    }
    if input.toggle {
      switch.enabled := !switch.enabled;
    }
    state.Press(input);
    var spawned := state.Release(input);
    state.Adjust(input);
    next := (if input.reset then [] else bodies) + (if spawned.Some? then [spawned.value] else []);
  }
}
