/** Actuators and their slots in the model's shared controls.

    A Model owns the default controls of all its actuators, one vector of
    reals. When an Actuator is added to the system it reserves a block of
    slots at the end of that vector and remembers where the block starts;
    from then on it reads, writes and accumulates its controls through that
    block. A ScalarActuator is an actuator with one control that also keeps,
    in the simulation State, a cached actuation and speed and an optional
    override of its actuation. */
module Actuators {
  import opened ControlSlots

  /** The part of a model that actuators share: its default controls. */
  class Model {
    var defaultControls: seq<real>

    /** A model whose system has not yet been built holds no controls. */
    constructor ()
      ensures defaultControls == []
    {
      defaultControls := [];
    }

    /** The number of controls of the model: one per slot of the default
        controls. */
    function NumControls(): (n: nat)
      reads this
      ensures n == |defaultControls|
    {
      |defaultControls|
    }

    /** SimTK's resizeKeep on the default controls: the vector gets length
        n, the first min(old length, n) entries are kept, and any new
        entries hold unspecified values. */
    method ResizeKeep(n: nat)
      modifies this`defaultControls
      ensures |defaultControls| == n
      ensures n <= old(|defaultControls|) ==> defaultControls == old(defaultControls[..n])
      ensures old(|defaultControls|) <= n ==> defaultControls[..old(|defaultControls|)] == old(defaultControls)
    {
      if n <= |defaultControls| {
        defaultControls := defaultControls[..n];
      } else {
        assert |Zeros(n - |defaultControls|)| == n - |defaultControls|;
        var fill: seq<real> :| |fill| == n - |defaultControls|;
        defaultControls := defaultControls + fill;
      }
    }
  }

  /** The simulation state as seen by one scalar actuator: the model's
      controls cache, whether the actuator is disabled, and the variables
      the actuator registers in the state. */
  class State {
    /** The model's controls for this state, one slot per model control. */
    var controls: seq<real>
    /** Whether the actuator is disabled in this state. */
    var disabled: bool
    /** Cache variable "actuation". */
    var actuation: real
    /** Cache variable "speed". */
    var speed: real
    /** Modeling option "override_actuation" (0 or 1). */
    var overrideOption: int
    /** Discrete variable "override_actuation". */
    var overrideActuation: real

    /** A state just realized from a system: the registered variables hold
        their defaults of zero and the override is off. */
    constructor (controls: seq<real>, disabled: bool)
      ensures this.controls == controls && this.disabled == disabled
      ensures actuation == 0.0 && speed == 0.0
      ensures overrideOption == 0 && overrideActuation == 0.0
    {
      this.controls := controls;
      this.disabled := disabled;
      actuation, speed := 0.0, 0.0;
      overrideOption, overrideActuation := 0, 0.0;
    }
  }

  /** An actuator: a component that owns numControls consecutive slots of
      its model's controls, starting at controlIndex (-1 until the slots are
      reserved). */
  class Actuator {
    const model: Model
    const numControls: nat
    var controlIndex: int

    /** A new actuator of model has reserved no slots yet. */
    constructor (model: Model, numControls: nat)
      ensures this.model == model && this.numControls == numControls
      ensures controlIndex == -1
    {
      this.model := model;
      this.numControls := numControls;
      new;
      SetNull();
    }

    /** Sets the data members to their null values: no slot reserved. */
    method SetNull()
      modifies this`controlIndex
      ensures controlIndex == -1
    {
      controlIndex := -1;
    }

    /** The actuator's block lies within the model's default controls. */
    predicate HasSlots()
      reads this, model
    {
      0 <= controlIndex && controlIndex + numControls <= model.NumControls()
    }

    /** Adding the actuator to the system reserves a fresh block of
        numControls zero-filled slots at the end of the model's default
        controls and records where it starts; the slots already there keep
        their values. */
    method ExtendAddToSystem()
      modifies this`controlIndex, model`defaultControls
      ensures controlIndex == old(model.NumControls())
      ensures model.defaultControls == old(model.defaultControls) + Zeros(numControls)
      ensures HasSlots()
    {
      ghost var before := model.defaultControls;
      controlIndex := model.NumControls();
      model.ResizeKeep(controlIndex + numControls);
      ghost var fill := model.defaultControls[controlIndex..];
      assert model.defaultControls == before + fill;
      model.defaultControls := Overwrite(model.defaultControls, controlIndex, Zeros(numControls));
      ReserveZeroFilled(before, fill);
    }

    /** The actuator's controls in state s: its block of the controls cache. */
    function GetStateControls(s: State): (r: seq<real>)
      reads this, s
      requires 0 <= controlIndex && controlIndex + numControls <= |s.controls|
      ensures |r| == numControls
      ensures forall k :: 0 <= k < numControls ==> r[k] == s.controls[controlIndex + k]
    {
      s.controls[controlIndex..controlIndex + numControls]
    }

    /** Copies the actuator's block of modelControls into actuatorControls. */
    method GetControls(modelControls: array<real>, actuatorControls: array<real>)
      requires HasSlots()
      requires modelControls.Length == model.NumControls()
      requires actuatorControls.Length == numControls
      modifies actuatorControls
      ensures actuatorControls[..] == old(modelControls[..])[controlIndex..controlIndex + numControls]
    {
      ghost var src := modelControls[..];
      forall k | 0 <= k < numControls {
        actuatorControls[k] := modelControls[controlIndex + k];
      }
      SameAt(actuatorControls[..], src[controlIndex..controlIndex + numControls]);
    }

    /** Writes actuatorControls into the actuator's block of modelControls;
        every other slot keeps its value. */
    method SetControls(actuatorControls: seq<real>, modelControls: array<real>)
      requires HasSlots()
      requires |actuatorControls| == numControls
      requires modelControls.Length == model.NumControls()
      modifies modelControls
      ensures modelControls[..] == Overwrite(old(modelControls[..]), controlIndex, actuatorControls)
    {
      ghost var before := modelControls[..];
      forall k | 0 <= k < numControls {
        modelControls[controlIndex + k] := actuatorControls[k];
      }
      ghost var want := Overwrite(before, controlIndex, actuatorControls);
      forall k | 0 <= k < modelControls.Length
        ensures modelControls[..][k] == want[k]
      {
      }
      SameAt(modelControls[..], want);
    }

    /** Adds actuatorControls, element by element, into the actuator's block
        of modelControls; every other slot keeps its value. */
    method AddInControls(actuatorControls: seq<real>, modelControls: array<real>)
      requires HasSlots()
      requires |actuatorControls| == numControls
      requires modelControls.Length == model.NumControls()
      modifies modelControls
      ensures modelControls[..] == AddIn(old(modelControls[..]), controlIndex, actuatorControls)
    {
      ghost var before := modelControls[..];
      forall k | 0 <= k < numControls {
        modelControls[controlIndex + k] := modelControls[controlIndex + k] + actuatorControls[k];
      }
      ghost var want := AddIn(before, controlIndex, actuatorControls);
      forall k | 0 <= k < modelControls.Length
        ensures modelControls[..][k] == want[k]
      {
        if InBlock(k, controlIndex, numControls) {
          assert want[controlIndex + (k - controlIndex)]
            == before[controlIndex + (k - controlIndex)] + actuatorControls[k - controlIndex];
        }
      }
      SameAt(modelControls[..], want);
    }
  }

  /** An actuator with a single control whose actuation and speed are kept
      in the state, and whose actuation can be overridden by a value held
      in the state. */
  class ScalarActuator {
    /** The Actuator this scalar actuator is, owning one control slot. */
    const actuator: Actuator

    /** A scalar actuator has exactly one control. */
    predicate Valid() {
      actuator.numControls == 1
    }

    constructor (model: Model)
      ensures Valid()
      ensures fresh(actuator)
      ensures actuator.model == model && actuator.numControls == 1
      ensures actuator.controlIndex == -1
    {
      actuator := new Actuator(model, 1);
    }

    /** Adding a scalar actuator to the system reserves its control slot as
        any actuator does; the state variables it registers are the fields
        of State. */
    method ExtendAddToSystem()
      modifies actuator`controlIndex, actuator.model`defaultControls
      ensures actuator.controlIndex == old(actuator.model.NumControls())
      ensures actuator.model.defaultControls
        == old(actuator.model.defaultControls) + Zeros(actuator.numControls)
      ensures actuator.HasSlots()
    {
      actuator.ExtendAddToSystem();
    }

    /** The control of the actuator in state s: the first slot of its block
        of the controls cache. */
    function GetControl(s: State): (r: real)
      reads actuator, s
      requires Valid()
      requires 0 <= actuator.controlIndex
      requires actuator.controlIndex + actuator.numControls <= |s.controls|
      ensures r == s.controls[actuator.controlIndex]
    {
      actuator.GetStateControls(s)[0]
    }

    /** The actuation in state s: zero when the actuator is disabled,
        otherwise the cached actuation. */
    function GetActuation(s: State): (r: real)
      reads s
      ensures s.disabled ==> r == 0.0
      ensures !s.disabled ==> r == s.actuation
    {
      if s.disabled then 0.0 else s.actuation
    }

    method SetActuation(s: State, actuation: real)
      modifies s`actuation
      ensures s.actuation == actuation
      ensures GetActuation(s) == if s.disabled then 0.0 else actuation
    {
      s.actuation := actuation;
    }

    /** The speed in state s: the cached speed. */
    function GetSpeed(s: State): (r: real)
      reads s
      ensures r == s.speed
    {
      s.speed
    }

    method SetSpeed(s: State, speed: real)
      modifies s`speed
      ensures GetSpeed(s) == speed
    {
      s.speed := speed;
    }

    /** Switches the override of the actuation on or off; the flag is
        stored as the integer 1 or 0. */
    method OverrideActuation(s: State, flag: bool)
      modifies s`overrideOption
      ensures s.overrideOption == if flag then 1 else 0
      ensures IsActuationOverriden(s) == flag
    {
      s.overrideOption := if flag then 1 else 0;
    }

    /** Whether the actuation is overridden: the stored option is positive. */
    function IsActuationOverriden(s: State): (r: bool)
      reads s
      ensures r <==> s.overrideOption > 0
    {
      s.overrideOption > 0
    }

    method SetOverrideActuation(s: State, actuation: real)
      modifies s`overrideActuation
      ensures GetOverrideActuation(s) == actuation
    {
      s.overrideActuation := actuation;
    }

    /** The override value in state s: the discrete variable. */
    function GetOverrideActuation(s: State): (r: real)
      reads s
      ensures r == s.overrideActuation
    {
      s.overrideActuation
    }

    /** Applies the override: the cached actuation becomes the override
        value, which is returned. */
    method ComputeOverrideActuation(s: State) returns (applied: real)
      modifies s`actuation
      ensures applied == GetOverrideActuation(s) == old(s.overrideActuation)
      ensures s.actuation == applied
      ensures GetActuation(s) == if s.disabled then 0.0 else applied
    {
      applied := GetOverrideActuation(s);
      SetActuation(s, applied);
    }
  }

  /** Writing an actuator's controls into a model's controls and reading
      them back gives what was written, also when the caller passes the
      same vector for both. */
  method SetThenGetControls(a: Actuator, c: seq<real>, modelControls: array<real>, actuatorControls: array<real>)
    requires a.HasSlots()
    requires |c| == a.numControls
    requires modelControls.Length == a.model.NumControls()
    requires actuatorControls.Length == a.numControls
    modifies modelControls, actuatorControls
    ensures actuatorControls[..] == c
  {
    a.SetControls(c, modelControls);
    a.GetControls(modelControls, actuatorControls);
    OverwriteThenRead(old(modelControls[..]), a.controlIndex, c);
  }

  /** Two actuators added one after the other to the same model get
      adjacent blocks that do not overlap, both zero-filled, and adding the
      second one leaves the first one's slots where they were. */
  method AddTwoActuators(a: Actuator, b: Actuator)
    requires a != b && a.model == b.model
    modifies a`controlIndex, b`controlIndex, a.model`defaultControls
    ensures a.HasSlots() && b.HasSlots()
    ensures a.controlIndex == old(a.model.NumControls())
    ensures b.controlIndex == a.controlIndex + a.numControls
    ensures Disjoint(a.controlIndex, a.numControls, b.controlIndex, b.numControls)
    ensures a.model.defaultControls
      == old(a.model.defaultControls) + Zeros(a.numControls) + Zeros(b.numControls)
  {
    a.ExtendAddToSystem();
    b.ExtendAddToSystem();
  }
}
