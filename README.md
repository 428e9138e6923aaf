# OpenSim actuator control slots and scalar actuator state, in Dafny

This project models the core of `OpenSim/Simulation/Model/Actuator.cpp` from
OpenSim, a toolkit for musculoskeletal modelling and simulation. The file covers two things.

- **Control slots of an `Actuator`.** A model keeps one shared vector of
  default controls for all its actuators. When an actuator is added to the
  system (`extendAddToSystem`), it records the current length of that vector
  as its `_controlIndex`. It then grows the vector with `resizeKeep` by
  `numControls()` slots and zero-fills the new block. After that it reads
  its block (`getControls`), overwrites it (`setControls`) or adds into it
  (`addInControls`). Each of these works on a model-sized vector of controls.
  Before it is added, an actuator's `_controlIndex` is -1 (`setNull`).
- **State accessors of a `ScalarActuator`.** A scalar actuator has one
  control. For each simulation state it keeps a cached actuation and speed,
  an integer "override_actuation" modelling option and a real
  "override_actuation" discrete value. `getActuation` returns 0 when the
  actuator is disabled. `computeOverrideActuation` copies the override
  value into the actuation cache and returns it.

The project has two modules.

- `ControlSlots` (`control_slots.dfy`) describes the shared vector of
  controls as a `seq<real>` value. It defines what reading a block,
  overwriting it (`Overwrite`), adding into it (`AddIn`) and reserving a new
  zero-filled block do to the whole vector. Its lemmas prove how these
  operations interact: one block leaves the others alone, the last write
  wins, accumulation can be regrouped, and adding into a zeroed block is the
  same as writing it.
- `Actuators` (`actuator.dfy`) holds the classes that change state in
  place, as the source does:
  - `Model` owns `defaultControls`, a `seq<real>` field that is resized in
    place.
  - `Actuator` has the `controlIndex` field. Its `SetControls` and
    `AddInControls` write into an `array<real>` of model controls, and
    `GetControls` copies into an `array<real>` of actuator controls.
    `SetControls` and `AddInControls` are proved against the `ControlSlots`
    functions `Overwrite` and `AddIn`; `GetControls` is proved to yield the
    actuator's block of the model controls.
  - `State` holds the controls cache and one scalar actuator's state
    variables.
  - `ScalarActuator` has the setters and getters over a `State`.

  Two client methods chain these specifications together.
  `SetThenGetControls` proves the round trip: write a block, then read the
  same values back. `AddTwoActuators` proves that actuators added one after
  the other get adjacent blocks that do not overlap.

Source details this model depends on:

- `Model::getNumControls()` is not part of this model. It is modelled as the
  length of the model's default controls (`Model.NumControls`). The size
  checks of `getControls`, `setControls` and `addInControls` are stated
  against that length.
- `ScalarActuator::numControls()` returning 1 comes from `Actuator.h`, which
  is not part of this model. `ScalarActuator`'s constructor builds its
  `Actuator` part with one control. Composition stands in for the C++
  inheritance.
- `isDisabled(s)` is not part of this model. It is the `disabled` field of
  `State`, an input.
- The source's size checks are `SimTK_ASSERT`s, which become `requires`
  clauses. The block-in-range fact that slicing relies on (`HasSlots`:
  `0 <= controlIndex` and the block fits in the model's controls) is
  established by `ExtendAddToSystem`. It is also a `requires` clause, because
  an actuator that was never added has index -1 and slicing with it fails.

## Model

| member | source | states |
|---|---|---|
| `ControlSlots.Zeros` | OpenSim/Simulation/Model/Actuator.cpp:77 | `Vector(numControls(), 0.0)`: exactly n slots, every one 0.0 |
| `ControlSlots.Plus` | OpenSim/Simulation/Model/Actuator.cpp:133 | the `+=` of two equal-size vectors: same size, each element the sum of the matching elements |
| `ControlSlots.Overwrite` | OpenSim/Simulation/Model/Actuator.cpp:122 | slice assignment `v(start, n) = c`: the size is unchanged, the block reads back as `c`, every slot outside the block is unchanged |
| `ControlSlots.AddIn` | OpenSim/Simulation/Model/Actuator.cpp:133 | slice accumulation `v(start, n) += c`: the size is unchanged, slot `start+k` becomes its old value plus `c[k]`, every slot outside the block is unchanged |
| `ControlSlots.ReserveZeroFilled` | OpenSim/Simulation/Model/Actuator.cpp:75-77 | growing the vector by n slots of any content and then zero-filling the block at the old length gives the old vector followed by n zeros: the old prefix is kept and the new slots are 0.0 |
| `ControlSlots.OverwriteThenRead` | OpenSim/Simulation/Model/Actuator.cpp:105-123 | after `setControls(c)` the block of `c`'s length at `start` reads back exactly as `c` |
| `ControlSlots.OverwriteKeepsOtherBlock` | OpenSim/Simulation/Model/Actuator.cpp:114-123 | writing one actuator's block leaves every disjoint block (another actuator's controls) unchanged |
| `ControlSlots.AddInKeepsOtherBlock` | OpenSim/Simulation/Model/Actuator.cpp:125-134 | adding into one actuator's block leaves every disjoint block unchanged |
| `ControlSlots.OverwriteTwice` | OpenSim/Simulation/Model/Actuator.cpp:114-123 | two `setControls` on the same block: the second write wins |
| `ControlSlots.OverwriteWithOwnBlock` | OpenSim/Simulation/Model/Actuator.cpp:105-123 | `getControls` followed by `setControls` of the values read leaves the model controls unchanged |
| `ControlSlots.AddInThenRead` | OpenSim/Simulation/Model/Actuator.cpp:125-134 | after `addInControls(c)`, the block reads as its old content plus `c` element by element |
| `ControlSlots.AddInZeros` | OpenSim/Simulation/Model/Actuator.cpp:125-134 | adding a zero vector into a block leaves the whole vector unchanged |
| `ControlSlots.AddInTwice` | OpenSim/Simulation/Model/Actuator.cpp:125-134 | `addInControls(a)` then `addInControls(b)` gives the same vector as one `addInControls(a + b)` (over exact reals) |
| `ControlSlots.AddInIntoZeroBlock` | OpenSim/Simulation/Model/Actuator.cpp:125-134 | adding `c` into a block that holds only zeros gives the same vector as writing `c` into it |
| `ControlSlots.AddInAfterZeroFill` | OpenSim/Simulation/Model/Actuator.cpp:125-134 | adding `c` into a freshly zero-filled block gives the same vector as writing `c` with `setControls` |
| `Actuators.Model.ResizeKeep` | OpenSim/Simulation/Model/Actuator.cpp:76 | `resizeKeep(n)`: the length becomes n and the old entries up to min(old length, n) are kept. New entries are unspecified |
| `Actuators.State.constructor` | OpenSim/Simulation/Model/Actuator.cpp:173-180 | a fresh state holds the variables registered at these lines. The cache variables start at the 0.0 given at :176-177. The override option starts at 0 (off) and the override value at 0.0; these two are the framework's allocation defaults, not values given at :173 or :180 (the `1` at :173 is the option's maximum) |
| `Actuators.Actuator.constructor` | OpenSim/Simulation/Model/Actuator.cpp:44-47 | a new actuator has reserved no slot: `controlIndex == -1` |
| `Actuators.Actuator.SetNull` | OpenSim/Simulation/Model/Actuator.cpp:57-61 | `_controlIndex` becomes -1 and no other field changes |
| `Actuators.Actuator.ExtendAddToSystem` | OpenSim/Simulation/Model/Actuator.cpp:65-78 | `controlIndex` becomes the old number of model controls. The default controls become the old ones followed by `numControls` zeros, so the new length is the old length plus `numControls`, the prefix is kept and the new slots are 0.0. The block then lies within the model's controls |
| `Actuators.Actuator.GetStateControls` | OpenSim/Simulation/Model/Actuator.cpp:99-103 | the actuator's controls in a state: `numControls` values, the k-th being slot `controlIndex + k` of the state's controls cache |
| `Actuators.Actuator.GetControls` | OpenSim/Simulation/Model/Actuator.cpp:105-112 | requires `modelControls` of the model's size and `actuatorControls` of size `numControls`. Afterwards `actuatorControls` equals the block `[controlIndex, controlIndex + numControls)` of `modelControls` |
| `Actuators.Actuator.SetControls` | OpenSim/Simulation/Model/Actuator.cpp:114-123 | under the same two size requirements, `modelControls` becomes `Overwrite(old, controlIndex, actuatorControls)`: the block equals `actuatorControls` and every other slot is unchanged |
| `Actuators.Actuator.AddInControls` | OpenSim/Simulation/Model/Actuator.cpp:125-134 | under the same two size requirements, `modelControls` becomes `AddIn(old, controlIndex, actuatorControls)`: each block slot is its old value plus the matching control and every other slot is unchanged |
| `Actuators.ScalarActuator.constructor` | OpenSim/Simulation/Model/Actuator.cpp:145-148 | a new scalar actuator owns a fresh actuator part with one control and no slot reserved |
| `Actuators.ScalarActuator.ExtendAddToSystem` | OpenSim/Simulation/Model/Actuator.cpp:168-181 | reserves the scalar actuator's slot exactly as `Actuator::extendAddToSystem` does |
| `Actuators.ScalarActuator.GetControl` | OpenSim/Simulation/Model/Actuator.cpp:183-186 | for a valid scalar actuator (one control), the control is element 0 of the actuator's block of the state's controls cache, which is slot `controlIndex` of that cache |
| `Actuators.ScalarActuator.GetActuation` | OpenSim/Simulation/Model/Actuator.cpp:198-202 | 0.0 when the actuator is disabled, otherwise the cached actuation |
| `Actuators.ScalarActuator.SetActuation` | OpenSim/Simulation/Model/Actuator.cpp:204-207 | only the actuation cache changes. `GetActuation` then returns the value set, or 0.0 if the actuator is disabled |
| `Actuators.ScalarActuator.GetSpeed` | OpenSim/Simulation/Model/Actuator.cpp:209-212 | the speed is the cached "speed" variable of the state; `SetSpeed` states the round trip |
| `Actuators.ScalarActuator.SetSpeed` | OpenSim/Simulation/Model/Actuator.cpp:209-217 | only the speed cache changes, and `GetSpeed` returns the value set |
| `Actuators.ScalarActuator.OverrideActuation` | OpenSim/Simulation/Model/Actuator.cpp:219-222 | the flag is stored as the integer 1 or 0, and `IsActuationOverriden` then returns the flag |
| `Actuators.ScalarActuator.IsActuationOverriden` | OpenSim/Simulation/Model/Actuator.cpp:224-227 | true exactly when the stored option is positive |
| `Actuators.ScalarActuator.SetOverrideActuation` | OpenSim/Simulation/Model/Actuator.cpp:229-237 | only the override value changes, and `GetOverrideActuation` returns the value set |
| `Actuators.ScalarActuator.GetOverrideActuation` | OpenSim/Simulation/Model/Actuator.cpp:234-237 | the override value is the "override_actuation" discrete variable of the state; `SetOverrideActuation` states the round trip |
| `Actuators.ScalarActuator.ComputeOverrideActuation` | OpenSim/Simulation/Model/Actuator.cpp:238-243 | returns the override value and leaves the actuation cache equal to it. Only the actuation cache changes. `GetActuation` then returns that value unless the actuator is disabled |
| `Actuators.SetThenGetControls` | OpenSim/Simulation/Model/Actuator.cpp:105-123 | round trip: `setControls(c, m)` followed by `getControls(m, out)` gives `out == c`, also when `m` and `out` are the same vector |
| `Actuators.AddTwoActuators` | OpenSim/Simulation/Model/Actuator.cpp:65-78 | two actuators added in turn to one model get adjacent, non-overlapping blocks, both in range and both zero-filled. The first keeps its index |

## Left out

- `OpenSim/Simulation/Model/AbstractDynamicsEngine.h` has only pure-virtual declarations with no bodies, and the engines behind them are floating-point rigid-body numerics. It is not part of this model.
- `ScalarActuator::constructOutputs` and the `addModelingOption`, `addCacheVariable` and `addDiscreteVariable` registrations in `ScalarActuator::extendAddToSystem` are SimTK and OpenSim library plumbing. Only their effect is modelled: the fields of `State` and their zero defaults.
- Realization stages (`Stage::Velocity`, `Stage::Time`) and cache-validity tracking are SimTK library behaviour and are not modelled.
- `getStress` and `getOptimalForce` only raise a "not overridden" error, and `updateGeometry` is empty. None of the three is modelled.
- The `-Infinity` and `Infinity` defaults of `min_control` and `max_control` are IEEE special values outside the slot logic and are not modelled. `setAuthors` in `setNull` sets metadata only and is not modelled.
- `State` carries the variables of one scalar actuator. SimTK keeps them per component in the same state; several actuators would each need their own copy.
- Controls are exact reals, not IEEE doubles: rounding is not modelled.
- ControlSlots.AddInTwice: holds for exact reals only. IEEE addition is not associative, so with doubles the two sides can differ in the last bits.
- Indices and sizes are unbounded integers. The C++ `int` overflow of `_controlIndex + numControls()` is not modelled.
- The call `Super::extendAddToSystem(system)` at the start of `Actuator::extendAddToSystem` belongs to the base component class, which is not part of this model; only the slot reservation that follows it is modelled.
- `Actuator::getControls(s)` returns a `VectorView` that points into the state's controls cache; `GetStateControls` returns a copy of the block, so writes through the view are not modelled.
- The initial values 0 of the "override_actuation" modelling option and 0.0 of the "override_actuation" discrete variable come from the framework's allocation of these variables, which is not part of this model; `State`'s constructor takes them as the defaults.
- Actuators.Actuator.GetControls, SetControls, AddInControls: also require `HasSlots()`, the invariant that `extendAddToSystem` establishes. The source only asserts the two sizes and relies on the actuator having been added.
