# remill decoding context in Dafny

remill lifts machine code. Some of what decides how instruction bytes decode is
not in the bytes themselves: on ARM, for instance, whether the processor is in
thumb mode. `remill::DecodingContext` carries that information alongside the
decoder. In C++ it is a value type whose only field, `context_value`, is a
`ContextValues` (a `std::map<std::string, uint64_t>`) from context-register
names to 64-bit values.

The project has two modules:

- `ContextMap` (`context_map.dfy`) holds the value layer: the `uint64` range,
  `ContextValues` as `map<string, uint64>`, and the two edits `Put` (insert or
  overwrite one register) and `Without` (forget one register). The laws of
  contexts are proved here: idempotence, last write wins, commutativity of
  edits to different registers, undoing a put, and, through `PutAll` (a chain
  of puts), that insertion order does not matter.
- `Context` (`decoding_context.dfy`) holds the class `DecodingContext` with the
  field `context_value`. The two non-const members `UpdateContextReg` and
  `DropReg` are methods that change the field in place. The const members
  `HasValueForReg`, `GetContextValue`, `GetContextValues` and `operator==`
  (`Equals`) are functions that read it. `PutContextReg` and
  `ContextWithoutRegister` return a new context, so they are methods that
  allocate a fresh object and modify nothing. `Copy` stands for the implicit
  copy constructor. All four edits are specified by
  `Put` and `Without`, so in-place and copying forms agree by construction.
  The client methods at the end of the module show that agreement on objects,
  forking one context into two successors, and the thumb-mode round trip.

`GetContextValue` requires `HasValueForReg`: an unset register is never
reported as 0, and no fallback value is invented. The file that defines the
member bodies is not part of this model. The behaviour modelled is what the
declarations promise: the `std::map` value type, the `const` qualifiers and the
member names.

## Model

| member | source | states |
|---|---|---|
| `ContextMap.Put` | include/remill/Arch/Context.h:59 | after putting `creg`, it is set and holds `value`; the registers are the old ones plus `creg`; every other register keeps its value |
| `ContextMap.Without` | include/remill/Arch/Context.h:60 | after removal `creg` is unset; the registers are the old ones minus `creg`; every remaining register keeps its value |
| `ContextMap.PutAll` | include/remill/Arch/Context.h:59 | a chain of puts sets exactly the old registers plus every register the chain names |
| `ContextMap.ItemsDetermineMap` | include/remill/Arch/Context.h:30 | two register maps are equal exactly when their sets of (name, value) pairs are equal |
| `ContextMap.PutIdempotent` | include/remill/Arch/Context.h:59 | putting the same pair twice equals putting it once |
| `ContextMap.PutOverwrites` | include/remill/Arch/Context.h:52 | a second put of a register replaces the first value (overwrite, not insert-if-absent) |
| `ContextMap.PutCommutes` | include/remill/Arch/Context.h:45 | puts of two different registers give equal contexts in either order |
| `ContextMap.WithoutIdempotent` | include/remill/Arch/Context.h:60 | removing a register twice equals removing it once |
| `ContextMap.WithoutAbsent` | include/remill/Arch/Context.h:60 | removing a register that is not set returns a context equal to the receiver |
| `ContextMap.WithoutUndoesPut` | include/remill/Arch/Context.h:59-60 | putting an unset register and then removing it gives back the original context |
| `ContextMap.WithoutAfterPut` | include/remill/Arch/Context.h:59-60 | removing a register discards any value put there just before |
| `ContextMap.PutWithoutCommute` | include/remill/Arch/Context.h:59-60 | a put and a removal of two different registers can be done in either order |
| `ContextMap.PutAllDistinct` | include/remill/Arch/Context.h:59 | after a chain of puts of distinct registers, each named register holds its value and every other register keeps its old value |
| `ContextMap.PutAllOrderIrrelevant` | include/remill/Arch/Context.h:45 | two chains of puts of distinct registers holding the same pairs in any order produce equal contexts |
| `Context.DecodingContext.constructor` | include/remill/Arch/Context.h:47 | the default constructor yields a context where no register is set |
| `Context.DecodingContext.FromValues` | include/remill/Arch/Context.h:49 | the map constructor yields a context whose `GetContextValues()` is exactly the supplied map |
| `Context.DecodingContext.Copy` | include/remill/Arch/Context.h:39 | the implicit copy constructor of the value type: a fresh object with the same values, equal to the original |
| `Context.DecodingContext.Equals` | include/remill/Arch/Context.h:45 | `operator==` holds exactly when both contexts hold the same set of (register, value) pairs, whatever order they were inserted in |
| `Context.DecodingContext.HasValueForReg` | include/remill/Arch/Context.h:55 | a register is reported set exactly when some value is stored for it; an unset register has no value, 0 included |
| `Context.DecodingContext.GetContextValue` | include/remill/Arch/Context.h:58 | callable only when `HasValueForReg` holds; returns the value stored for the register |
| `Context.DecodingContext.UpdateContextReg` | include/remill/Arch/Context.h:52 | in place, the field becomes the old one with `creg` put to `value`; afterwards the register is set and reads back `value` |
| `Context.DecodingContext.DropReg` | include/remill/Arch/Context.h:53 | in place, the field becomes the old one without `creg`; afterwards the register is unset |
| `Context.DecodingContext.PutContextReg` | include/remill/Arch/Context.h:59 | returns a fresh context whose values are the receiver's with `creg` put to `value`; the receiver's field is unchanged |
| `Context.DecodingContext.ContextWithoutRegister` | include/remill/Arch/Context.h:60 | returns a fresh context whose values are the receiver's without `creg`; the receiver's field is unchanged |
| `Context.DecodingContext.GetContextValues` | include/remill/Arch/Context.h:62 | the snapshot holds exactly the registers `HasValueForReg` reports, each with the value `GetContextValue` reports |
| `Context.EqualsIffSameRegisters` | include/remill/Arch/Context.h:45 | two contexts are equal if and only if they set the same registers and agree on the value of each |
| `Context.EqualsIsEquivalence` | include/remill/Arch/Context.h:45 | `operator==` is reflexive, symmetric and transitive |
| `Context.UpdateAgreesWithPut` | include/remill/Arch/Context.h:52-59 | a copy made by `PutContextReg` equals the receiver after `UpdateContextReg` with the same arguments, and the copy is a separate object |
| `Context.DropAgreesWithWithout` | include/remill/Arch/Context.h:53-60 | a copy made by `ContextWithoutRegister` equals the receiver after `DropReg` of the same register |
| `Context.UpdateCopy` | include/remill/Arch/Context.h:52 | updating a copy in place leaves the original's values unchanged and gives the copy the original's values with the register put |
| `Context.ForkSuccessors` | include/remill/Arch/Context.h:59 | two copies forked from one context with different values for a register are distinct objects, unequal, equal apart from that register, and leave the original unchanged |
| `Context.ThumbModeScenario` | include/remill/Arch/Context.h:32 | starting empty, a copy with "thumb" set to 1 reports 1, the original still lacks "thumb", and removing "thumb" from the copy gives a context equal to the original |

## Left out

- Value semantics of C++ copies: the class is a Dafny reference type, so an
  assignment `d := c` shares one object, and an in-place edit through `d` is
  seen through `c`. The implicit copy assignment operator is not modelled;
  independent copies come only from `Copy`, `PutContextReg`,
  `ContextWithoutRegister` and `FromValues(c.GetContextValues())`.
- Successor resolution: the function from successor address to new context
  that the comment at include/remill/Arch/Context.h:35-37 describes belongs to
  the decoder, which is not part of this model.
- `std::map` iteration order: `GetContextValues` returns the map as a value;
  the key ordering of `std::map` and the fact that the accessor returns a
  `const &` are not modelled. `Equals` compares the maps as values, which
  agrees with `std::map`'s `operator==` for maps with unique keys.
- The value `GetContextValue` returns for an unset register: the member body
  is not available, so the register being set is a precondition.
- `std::string` internals: register names are opaque strings with no
  encoding or normalisation.
- Thread safety: the class has no synchronisation, and the model is
  sequential.
