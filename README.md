# Ruby's `internal/vm.h` call-site cache, in Dafny

This project models the core of Ruby's `internal/vm.h` header (Ruby 2.7 era):

- **`enum method_missing_reason`** (`missing_reason.dfy`): the reasons a
  method lookup can fail. They are bit flags that the VM ORs into one status
  word and tests one at a time with `&`.
- **The `struct rb_call_cache` layout** (`call_cache_layout.dfy`). The length
  of `class_serial` is computed so that the struct fills one 64-byte cache
  line, and `STATIC_ASSERT(cachelined, ...)` promises that it does not spill
  over. The computation depends on the platform's type sizes and on
  `DEBUG_COMPACT`. Both are parameters, and the assertion is proved for three
  concrete platforms.
- **The contents of `rb_call_cache`, `rb_call_info` and `rb_call_data`**
  (`call_data.dfy`), as values:
  - the `aux` union, tagged by the member it was written through;
  - the zero-filled static cell;
  - `SET_COMPACT_COUNT`.
- **The ad hoc call-site macros `rb_funcallv` and
  `rb_method_basic_definition_p`**:
  - `lazy_root.dfy` gives a pure specification of their one-time
    initialisation;
  - `adhoc_call_site.dfy` gives classes over the mutable state they touch:
    the static cell, the static `wrapper`, the collector's imemo objects and
    permanent mark objects, and the out-of-line `*_with_cc` functions.

  The proved behaviour:
  - the first expansion run allocates exactly one imemo wrapping the cell and
    registers it as a GC root exactly once;
  - later runs allocate and register nothing;
  - every run hands the same cell to the VM;
  - other sites are left as they were;
  - `klass == Qfalse` answers true without asking the VM, but only after the
    initialisation has run.

Modelling choices:

- The enum and `unsigned int` are modelled as `bv32`. `aux`'s reason member
  has the enum's integer type, so it holds any such word: one reason's code
  or several OR-ed together.
- `VALUE`, `ID` and `rb_serial_t` are unbounded naturals.
- The imemo object at position `k` of the collector's list has VALUE `k + 1`.
  This keeps the C idiom of a `wrapper` that is 0 until it is set: the
  `if (!wrapper)` test works only because an allocated object is never 0.
- `64 - sizeof(...)` in the array length is `size_t` arithmetic and is
  modelled modulo `2^(8 * sizeof(size_t))`.
- The missing-reason set has eight values. This includes `MISSING_NONE`
  (0x40), which the header declares even though it is not a lookup failure.

## Model

| member | source | states |
|---|---|---|
| `MissingReasons.Code` | internal/vm.h:46-55 | Each reason has the enum's value; MISSING_NOENTRY is the only reason whose value is 0 |
| `MissingReasons.FromCode` | internal/vm.h:46-55 | Reading a word back as a reason gives a reason whose value is that word, or nothing |
| `MissingReasons.CodeRoundTrip` | internal/vm.h:46-55 | Every reason is read back from its own value |
| `MissingReasons.CodesDistinct` | internal/vm.h:46-55 | No two reasons share a value |
| `MissingReasons.CodesAreFlags` | internal/vm.h:48-54 | Every value except MISSING_NOENTRY is a single bit; two different reasons share no bit |
| `MissingReasons.HasOr` | internal/vm.h:46-55 | OR-ing a non-zero reason (anything but MISSING_NOENTRY) into a status word makes `&` find that reason. For any other non-zero reason the test is unchanged: after the OR, `&` finds a tested reason exactly when it found it before or it is the reason OR-ed in |
| `MissingReasons.Combine` | internal/vm.h:46-55 | OR-ing reasons into a status word never sets a bit outside the seven the enum defines (0x01-0x40) |
| `MissingReasons.HasMeansFlagSet` | internal/vm.h:46-55 | The `&` test finds a reason exactly when the reason is not MISSING_NOENTRY and its whole flag is set in the word |
| `MissingReasons.CombineHas` | internal/vm.h:46-55 | A status word OR-ed from a list of reasons tests positive for a non-zero reason exactly when that reason is in the list |
| `MissingReasons.NoEntryUntestable` | internal/vm.h:47 | MISSING_NOENTRY, being 0, is never found by `&` in any status word |
| `CallCacheLayout.Fields` | internal/vm.h:57-95 | The struct has six fields, or seven under DEBUG_COMPACT, and on a valid platform every alignment is positive |
| `CallCacheLayout.FixedBytesAreOtherFields` | internal/vm.h:61-73 | The bytes subtracted from CACHELINE are the sizes of every field except `class_serial`, with `aux` counted as the enum rather than the union (`compact_count` only under DEBUG_COMPACT) |
| `CallCacheLayout.OtherFieldsSum` | internal/vm.h:57-95 | With an empty `class_serial`, the fields add up to `method_state`, three pointers, `compact_count` under DEBUG_COMPACT, and the `aux` union |
| `CallCacheLayout.ClassSerialLength` | internal/vm.h:60-76 | Whenever the other fields fit in the line, the length is the largest number of serials that fit beside them: `fixed + n*S <= 64 < fixed + (n+1)*S` |
| `CallCacheLayout.CallCacheSize` | internal/vm.h:57-95 | `sizeof(struct rb_call_cache)` is at least the end of the last field, which is at least the sum of the field sizes; it is less than that end plus the strictest alignment, and a multiple of that alignment |
| `CallCacheLayout.CacheLined` | internal/vm.h:96 | When the static assertion holds, every byte of every field lies within the 64-byte line |
| `CallCacheLayout.SizeOfCoversFields` | internal/vm.h:57-96 | A padded struct is at least as large as the sum of its fields and as the end of its last field, and its size is a multiple of its strictest alignment |
| `CallCacheLayout.ClassSerialFills` | internal/vm.h:60-76 | When the other fields fit in the line, the `size_t` subtraction does not wrap, and `class_serial` is the longest serial array that fits: one more element would overflow the 64 bytes |
| `CallCacheLayout.CallCacheLaidOut` | internal/vm.h:57-95 | `sizeof(struct rb_call_cache)` is the end offset of `aux` rounded up to the strictest alignment, where each field starts at the next multiple of its own alignment |
| `CallCacheLayout.CacheLinedOnSupportedPlatforms` | internal/vm.h:96 | `sizeof(struct rb_call_cache) <= CACHELINE` on LP64, ILP32 and i386, with DEBUG_COMPACT on or off |
| `CallCacheLayout.CacheLinedLP64` | internal/vm.h:96 | The static assertion holds on LP64, with DEBUG_COMPACT on or off |
| `CallCacheLayout.CacheLinedILP32` | internal/vm.h:96 | The static assertion holds on ILP32 with 8-byte-aligned serials, with DEBUG_COMPACT on or off |
| `CallCacheLayout.CacheLinedI386` | internal/vm.h:96 | The static assertion holds on i386, where serials are 4-byte aligned, with DEBUG_COMPACT on or off |
| `CallCacheLayout.CacheLinedLP64Release` | internal/vm.h:57-96 | On LP64 without DEBUG_COMPACT, `class_serial` has 3 elements and the struct is exactly 64 bytes |
| `CallCacheLayout.CacheLinedLP64Debug` | internal/vm.h:57-96 | On LP64 with DEBUG_COMPACT, `class_serial` has 2 elements and the struct is exactly 64 bytes |
| `CallCacheLayout.CacheLinedILP32Release` | internal/vm.h:57-96 | On ILP32 without DEBUG_COMPACT, `class_serial` has 5 elements and the struct is exactly 64 bytes |
| `CallCacheLayout.CacheLinedILP32Debug` | internal/vm.h:57-96 | On ILP32 with DEBUG_COMPACT, `class_serial` has 4 elements and the struct is 64 bytes, including 4 bytes of tail padding |
| `CallCacheLayout.CacheLinedI386Release` | internal/vm.h:57-96 | On i386 without DEBUG_COMPACT, `class_serial` has 5 elements and the struct is exactly 64 bytes |
| `CallCacheLayout.CacheLinedI386Debug` | internal/vm.h:57-96 | On i386 with DEBUG_COMPACT, `class_serial` has 4 elements and the struct is 60 bytes |
| `CallStructs.ReadAux` | internal/vm.h:91-94 | Reading `aux` through either member always gives a value of that member with exactly the stored bits, including an OR-ed word of several reasons |
| `CallStructs.AuxReasonRoundTrip` | internal/vm.h:91-94 | A single reason stored in `aux` and read back through the reason member is that reason |
| `CallStructs.AuxReasonsRoundTrip` | internal/vm.h:91-94 | Several reasons OR-ed into `aux` and read back through the reason member test positive for exactly those reasons |
| `CallStructs.AuxRoundTrip` | internal/vm.h:91-94 | Reading `aux` through the member it was written with gives back what was written |
| `CallStructs.AuxBitsAmbiguous` | internal/vm.h:91-94 | The stored bits alone do not tell the two members apart: every reason word is also an ivar index |
| `CallStructs.ZeroCallData` | internal/vm.h:198-209 | A zero-filled static `rb_call_data` has the build's shape. `method_state`, `method_serial`, every `class_serial` element and `compact_count` (when present) are 0. `me` and `call` are null, `ci` is all zero, and `aux` reads as index 0 and, through the reason member, as MISSING_NOENTRY |
| `CallStructs.SetCompactCount` | internal/vm.h:188-193 | Under DEBUG_COMPACT, `cc.compact_count` takes the given count and nothing else changes; otherwise the cell is unchanged |
| `LazyRoot.FirstUseBinds` | internal/vm.h:199-204 | From an unused or bound site, one run of the `if (!wrapper)` block leaves the site bound. An unused site gains exactly one imemo, wrapping its cell, and one mark object, that imemo. A bound site changes nothing |
| `LazyRoot.FirstUse` | internal/vm.h:200-204 | After the `if (!wrapper)` block the wrapper is non-zero. A set wrapper leaves everything as it was. An unset one becomes a new VALUE, one past the earlier imemos, whose imemo wraps the cell and is appended once to the mark objects; earlier imemos and marks are kept |
| `LazyRoot.Uses` | internal/vm.h:196-206 | Any number of runs of one expansion keeps every earlier imemo and mark and adds at most one of each. After at least one run the wrapper is non-zero; a set wrapper stays put |
| `LazyRoot.FirstUseKeepsOtherSites` | internal/vm.h:198-204 | Binding one site leaves every other site unused or bound as it was |
| `LazyRoot.UsesAllocateOnce` | internal/vm.h:196-206 | Any number of runs of an unused site (at least one) adds exactly one imemo and exactly one mark object |
| `LazyRoot.LaterUsesChangeNothing` | internal/vm.h:200-204 | Once `wrapper` is set, any number of further runs leaves the wrapper and the registry as they were |
| `AdHocCall.CallDataCell.constructor` | internal/vm.h:198 | A new static cell holds the zero-filled call data |
| `AdHocCall.Gc.ImemoNewCallData` | internal/vm.h:202 | `rb_imemo_new` appends one imemo wrapping the cell and returns its VALUE, which is never Qfalse |
| `AdHocCall.Gc.RegisterMarkObject` | internal/vm.h:203 | `rb_gc_register_mark_object` appends the object to the permanent roots and changes nothing else |
| `AdHocCall.Gc.CompactCount` | internal/vm.h:190 | `rb_gc_compact_count()` returns the collector's current compaction count |
| `AdHocCall.Vm.FuncallvWithCc` | internal/vm.h:166 | Each call is recorded with the cell, the cell's contents at the moment of the call, the arguments and the result |
| `AdHocCall.Vm.MethodBasicDefinitionPWithCc` | internal/vm.h:167 | Each call is recorded with the cell, its contents at the moment of the call, `klass`, `mid` and the answer |
| `AdHocCall.Initialised` | internal/vm.h:188-201 | After the init block, a cell whose site was already bound is unchanged. On the first run under DEBUG_COMPACT, `cc.compact_count` takes the count and nothing else changes. Without DEBUG_COMPACT the cell is always unchanged, and `ci` is never touched |
| `AdHocCall.AdHocCallSite.constructor` | internal/vm.h:198-199 | A site starts with a fresh zero-filled cell and `wrapper == 0`, and is valid |
| `AdHocCall.AdHocCallSite.Bind` | internal/vm.h:200-204 | The site's wrapper and the collector's registry change exactly as `LazyRoot.FirstUse` says, so the site keeps its invariant and its wrapper is non-zero. The compaction count is stamped into the cell only on the first run |
| `AdHocCall.AdHocCallSite.Funcallv` | internal/vm.h:196-206 | After binding, `rb_funcallv_with_cc` is called exactly once, with the site's own cell (already stamped) and the caller's arguments; when that call returns, its result is returned |
| `AdHocCall.AdHocCallSite.MethodBasicDefinitionP` | internal/vm.h:207-218 | Binding always runs first. For `klass == Qfalse` the answer is true and the VM is not asked. Otherwise the VM is asked exactly once, with the site's own cell, and its answer is returned |
| `AdHocCall.TwoExpansions` | internal/vm.h:195-218 | One expansion of each macro, each run twice, leaves both sites valid. The collector gains exactly the two imemos (one per cell) and the two mark objects (their VALUEs). Both `rb_funcallv` runs hand the VM the first site's cell, and the one `rb_method_basic_definition_p` lookup (none when `klass` is Qfalse) gets the second site's cell |

## Left out

- `AdHocCall.Vm.FuncallvWithCc`: the method lookup and the call are not
  modelled, because `rb_funcallv_with_cc` is only declared in the header
  (under `/* vm_method.c */`, internal/vm.h:164-166), and vm_method.c is not
  part of this model. Its result and the cell's new contents are left
  arbitrary.
- `AdHocCall.Vm.MethodBasicDefinitionPWithCc`: the answer is arbitrary and
  the cell may be rewritten, for the same reason (it is declared at
  internal/vm.h:166, and vm_method.c is not part of this model).
- `AdHocCall.AdHocCallSite.Funcallv`: states nothing about the cell's
  contents after the call, since the callee may rewrite them.
- Non-local exits: every foreign call is modelled as returning normally,
  with no Ruby exception and no `longjmp`. That covers `rb_funcallv_with_cc`,
  `rb_method_basic_definition_p_with_cc`, `rb_imemo_new` and
  `rb_gc_register_mark_object`. `rb_funcallv_with_cc` runs an arbitrary Ruby
  method, which can raise. The two allocating calls in the init block
  (internal/vm.h:202-203) may raise too, but their bodies are not part of
  this model. The model therefore never reaches two partly initialised
  states. In one, the compaction count is stamped in the cell while `wrapper`
  is still 0 (a raise inside `rb_imemo_new`). In the other, `wrapper` is set
  but never registered as a mark object (a raise inside
  `rb_gc_register_mark_object`). `LazyRoot.SiteInvariant` and the contracts
  of `AdHocCall.AdHocCallSite.Bind`, `Funcallv` and `MethodBasicDefinitionP`
  hold only on the normal path.
- The `*_with_cc` callees are modelled as never touching the collector. In
  Ruby they run arbitrary code that can allocate objects.
- The collector tracks only the call-data imemos these macros allocate and
  their registrations as mark objects. Objects that other callers of
  `rb_gc_register_mark_object` register, and every other object, are not
  part of this model.
- `SET_COMPACT_COUNT` is stamped with the collector's counter, but no
  operation here advances that counter: compaction itself is not part of this
  model.
- The other imemo arguments (`0, 0, (VALUE)&cell`) and the imemo type tag are
  not modelled. Imemo VALUEs are positions in the collector's list, not
  addresses.
- Concurrency: the `if (!wrapper)` test and its initialisation are not atomic
  in C. The model assumes one thread at a time, as Ruby's global VM lock
  provides.
- The macros exist only under `__GNUC__` (internal/vm.h:195-219). The plain
  function fallback and the `#undef`s at internal/vm.h:20-26 are not modelled.
- Struct layout follows the usual sequential rule, with each platform's
  sizes and alignments as parameters. The static assertion is proved for
  LP64, ILP32 and i386 only, not for every ABI a C compiler may use.
- The array length subtracts `sizeof(enum method_missing_reason)` for `aux`
  (internal/vm.h:65). The layout itself sizes the union as the larger of
  `unsigned int` and the enum. On all three platforms both are 4 bytes.
- `rb_serial_t`, `VALUE`, `ID`, `uintptr_t` and the `me`/`call` pointers are
  unbounded naturals. The `call` function pointer is an address, not a
  function.
- The functions declared at internal/vm.h:110-186 (other than the two
  `*_with_cc` callees) are defined elsewhere and are not part of this model.
- The DTrace hook macros (internal/vm.h:221-231) are not part of this model.
- Cache validation, the slow-path method search, and the serial generator
  that fills `method_state` and `class_serial` are not part of this model.
