# Bouffalo clock engine, modelled in Dafny

This project models the generic clock engine of the Bouffalo Lab clock
controllers in U-Boot (`drivers/clk/bflb/clk_bflb.c`). A controller is
described by a constant table of clocks (`struct bflb_clk_data`). Each entry
gives a parent list, a selector field, a divider field, an enable field and a
reset field (each a register offset and a mask), an optional fixed divider and
an optional fixed rate. The engine computes rates, chooses parents, programs
dividers and gates clocks from that table alone. It keeps one piece of mutable
state besides the registers: a table of current parents that `probe` allocates
zeroed and `get_parent` fills in lazily.

The modules:

- `Bits` (`bits.dfy`): 32-bit register words and the masks the engine uses.
  It covers `clrsetbits_le32`, `setbits_le32` and `clrbits_le32`, `BIT` and
  `GENMASK`, the lowest set bit `mask & -mask`, and reading and writing a field
  by dividing or multiplying by its lowest bit.
- `ClkTypes` (`clk_types.dfy`): clock handles, descriptor entries, the platform
  data and the error codes. It also holds the engine's pure helpers:
  `get_data`, `request`, `count_parents` and `resolve_parent`.
- `ClkSpec` (`clk_spec.dfy`): definitions of what each operation computes. These
  are the reported parent, the rate, the table of candidate rates and the best
  candidate, the register writes of `set_rate`, `set_parent`, `set_gate`, the
  reset pulse and `enable`. Alongside them are the lemmas about those
  definitions.
- `ClkBflb` (`clk_bflb.dfy`): class `ClockDomain`, one bound controller. Its
  fields are the register file (`regs`, a map from offset to word) and the
  parent cache (`cache`, an array of handles). Every clock operation is a
  method that updates these fields. Each method is proved against the
  `ClkSpec` definitions and keeps the invariant `Valid()`:
  - the register file holds every offset the table uses;
  - the table is well formed;
  - local parent links, whether in the table or in the cache, strictly
    decrease a ghost `rank`, so the recursion of `get_rate` and `enable`
    terminates;
  - every cached parent is one of its clock's parents, as the parent list
    and the framework resolve them.
- `Bl808` (`bl808.dfy`): two fixtures built after the BL808 tables in
  `drivers/clk/bflb/clk_bl808.c`:
  - part of the HBN controller: the `XCLK` selector between RC32M and the
    crystal, `HBN_ROOT` and `XTAL`;
  - part of the GLB controller: the WiFi PLL, its fixed divide-by-5 output and
    the USB PLL with its reset.

  On these fixtures the model exhibits concrete behaviour, including all three
  findings below.

Clocks of other controllers are reached through the clock framework. It is
modelled as a `Provider` of three functions:
- lookup by name;
- the rate of a foreign clock;
- the enable of a foreign clock.

The framework's `clk_get_parent_rate` on a clock of this controller is modelled
as follows:
- if the reported parent is local, it is that parent's rate as the engine
  computes it;
- if the parent is foreign, it is the provider's rate;
- if there is no parent, it is `-ENODEV`.

## Model

| member | source | states |
|---|---|---|
| ClkTypes.GetData | drivers/clk/bflb/clk_bflb.c:21-30 | an entry is found exactly when the id is inside the table, and it is the entry at that id |
| ClkTypes.Request | drivers/clk/bflb/clk_bflb.c:32-37 | a handle is accepted (0) exactly when its id names an entry; otherwise the result is `-EINVAL` |
| ClkTypes.CountParents | drivers/clk/bflb/clk_bflb.c:39-45 | no selector means one parent; a contiguous field of width k below 32 gives 2^k parents; a full-width field wraps to 0 in u32 arithmetic |
| ClkTypes.ResolveParent | drivers/clk/bflb/clk_bflb.c:47-78 | each case of parent resolution: no list or NO_PARENT gives `-ENOENT`; an id below FW_PARENT_BASE gives a handle to this controller; an id among the firmware names gives the framework's lookup of that name, error included; past the firmware names gives `-EINVAL`; a resolved handle is valid; a failure is a negative code |
| ClkTypes.ResolveRanked | drivers/clk/bflb/clk_bflb.c:47-78 | in a ranked table a resolved local parent has a lower rank than its child, so parent chains end |
| Bits.SetBitsAsClrSet | drivers/clk/bflb/clk_bflb.c:257-257 | setting bits is a clear-and-set that clears nothing |
| Bits.ClrBitsAsClrSet | drivers/clk/bflb/clk_bflb.c:259-259 | clearing bits is a clear-and-set that sets nothing |
| Bits.RunShape | drivers/clk/bflb/clk_bl808.c:194-200 | the mask of bits s..s+k-1 (`BIT`, `GENMASK`) is contiguous, its lowest set bit is s and its width is k |
| Bits.FieldCountOfRun | drivers/clk/bflb/clk_bflb.c:88-92 | `mask / (mask & -mask) + 1` is 2^width for a field narrower than 32 bits, and 0 for a full word |
| Bits.FieldMaxOfRun | drivers/clk/bflb/clk_bflb.c:91-91 | `mask / (mask & -mask)` is the largest field value, 2^width - 1 |
| Bits.FieldRead | drivers/clk/bflb/clk_bflb.c:148-152 | a field read is below the field's count of values, and is the field's bits shifted down when there is a mask |
| Bits.FieldReadWrite | drivers/clk/bflb/clk_bflb.c:171-183 | writing v below the count with a clear-and-set of `v * lsb` and reading the field back gives v; bits outside the mask keep their value |
| Bits.FieldReadFrame | drivers/clk/bflb/clk_bflb.c:198-202 | a field read depends only on the bits under the mask |
| Bits.BitField | drivers/clk/bflb/clk_bl808.c:194-207 | `BIT(p)` is a two-valued field whose value is bit p of the word |
| Bits.ZeroField | drivers/clk/bflb/clk_bflb.c:198-202 | an absent field (mask 0) has exactly one value |
| ClkSpec.Sels | drivers/clk/bflb/clk_bflb.c:39-45 | for a well-formed entry, the parent count is at least one and never exceeds the parent list |
| ClkSpec.Divs | drivers/clk/bflb/clk_bflb.c:85-92 | the number of divider settings is 1 without a divider field, otherwise 2^width |
| ClkSpec.LiveSel | drivers/clk/bflb/clk_bflb.c:195-202 | the selector value read from the registers is always a valid parent index |
| ClkSpec.EffParent | drivers/clk/bflb/clk_bflb.c:188-211 | the parent the engine reports (cached, or resolved from the selector) is, when there is one, a valid handle |
| ClkSpec.EffParentRanked | drivers/clk/bflb/clk_bflb.c:188-211 | a reported local parent has lower rank than the clock |
| ClkSpec.FixedRate | drivers/clk/bflb/clk_bflb.c:145-146 | dividing by the fixed divider never raises the rate, and without one it keeps it |
| ClkSpec.NodeRate | drivers/clk/bflb/clk_bflb.c:145-157 | a derived rate never exceeds the parent rate, and equals it with no fixed divider and no divider field |
| ClkSpec.FixedRateReported | drivers/clk/bflb/clk_bflb.c:138-139 | a clock with a fixed rate reports that rate, whatever the registers and the parent cache hold |
| ClkSpec.RateBelowParent | drivers/clk/bflb/clk_bflb.c:138-157 | a clock without a fixed rate runs no faster than its reported parent |
| ClkSpec.FillKeepsParents | drivers/clk/bflb/clk_bflb.c:194-208 | filling the parent cache from the registers changes no reported parent |
| ClkSpec.FillKeepsCoherent | drivers/clk/bflb/clk_bflb.c:194-208 | filling the parent cache keeps the controller invariant |
| ClkSpec.FillKeepsSound | drivers/clk/bflb/clk_bflb.c:194-208 | filling the parent cache from the registers keeps every cached parent one of its clock's parents |
| ClkSpec.CacheSetSound | drivers/clk/bflb/clk_bflb.c:236-236 | recording a resolved parent in the cache keeps every cached parent one of its clock's parents |
| ClkSpec.FillKeepsRate | drivers/clk/bflb/clk_bflb.c:132-158 | filling the parent cache changes no parent rate and no rate, for every clock (by induction on rank) |
| ClkSpec.CandsRow | drivers/clk/bflb/clk_bflb.c:99-111 | the candidates of a selector that fails to resolve, or whose parent rate is an error, are all missing; otherwise candidate d is the parent rate after the fixed divider, divided by 1 + d |
| ClkSpec.CandsAt | drivers/clk/bflb/clk_bflb.c:94-111 | every row of the candidate table has one entry per divider setting, and an entry is the candidate rate of its (sel, div) |
| ClkSpec.FillKeepsCands | drivers/clk/bflb/clk_bflb.c:94-111 | filling the parent cache, as a rate search does, changes no entry of any clock's candidate table |
| ClkSpec.BestUnique | drivers/clk/bflb/clk_bflb.c:113-118 | the best rate within the request is unique; when it is nonzero, so is its setting, the first in (sel, div) order because ties do not replace |
| ClkSpec.BestIdempotent | drivers/clk/bflb/clk_bflb.c:125-130 | rounding a rounded rate gives that rate back with the same setting |
| ClkSpec.RoundRateRepeat | drivers/clk/bflb/clk_bflb.c:125-130 | a second round-rate search after the first one's cache fills gives the same rate, and the same setting when it is nonzero |
| ClkSpec.BestMonotone | drivers/clk/bflb/clk_bflb.c:125-130 | rounding is monotone in the requested rate |
| ClkSpec.NoParentsRoundToZero | drivers/clk/bflb/clk_bflb.c:94-122 | a clock without a parent list rounds every request to 0 |
| ClkSpec.FieldWriteEffect | drivers/clk/bflb/clk_bflb.c:174-182 | a field write reads back its value, keeps the other bits of the register and changes no other register |
| ClkSpec.SetRateReadBack | drivers/clk/bflb/clk_bflb.c:171-183 | after the set-rate writes the selector reads back sel and the divider reads back div; no other register changes |
| ClkSpec.SetRateState | drivers/clk/bflb/clk_bflb.c:160-186 | corrected set-rate state: the registers keep their offsets and no other clock's cache entry changes; when the written selector's parent resolves, it becomes the clock's reported parent, and otherwise the cache is unchanged |
| ClkSpec.SetRateStateCoherent | drivers/clk/bflb/clk_bflb.c:160-186 | the corrected set-rate state (fields written, new parent recorded) keeps the controller invariant |
| ClkSpec.SetRateRoundTrip | drivers/clk/bflb/clk_bflb.c:160-186 | corrected set-rate: after a nonzero best rate is programmed and its parent recorded, the clock runs at that best rate (given the parent's own rate is unchanged) |
| ClkSpec.SetRateFreshRoundTrip | drivers/clk/bflb/clk_bflb.c:160-186 | as written, over the cache the search leaves, whose entry for the clock is untouched: when the clock had no cached parent, or has no selector and caches one of its parents, after the writes it runs at the best rate (given the parent's own rate is unchanged) |
| ClkSpec.GateEffect | drivers/clk/bflb/clk_bflb.c:241-250 | gating on sets every bit of the enable mask and gating off clears them; the other bits and registers are kept |
| ClkSpec.ResetPulse | drivers/clk/bflb/clk_bflb.c:252-264 | the reset field goes set, clear, set; the other bits and registers are kept |
| ClkSpec.ResetPulseBits | drivers/clk/bflb/clk_bflb.c:257-261 | the three reset writes are, in order, a set, a clear and a set of the reset mask in the reset register |
| ClkSpec.OwnEnableEffect | drivers/clk/bflb/clk_bflb.c:280-287 | after the clock's own enable writes its gate is on, and its reset field is set when it has one; other registers are unchanged |
| ClkSpec.EnableSpec | drivers/clk/bflb/clk_bflb.c:266-288 | an enable returns its parent step's code and starts with the parent step's writes; on success the clock's own gate and reset writes follow, and nothing else |
| ClkSpec.EnableHitsErrPtr | drivers/clk/bflb/clk_bflb.c:271-274 | as written: a clock whose parent lookup fails reaches the unchecked error pointer, a clock with a foreign parent does not, and a clock that reaches it has a clock of no higher rank whose lookup fails |
| ClkSpec.EnableFailsClean | drivers/clk/bflb/clk_bflb.c:266-288 | a failed enable writes no register |
| ClkSpec.EnableGatesOn | drivers/clk/bflb/clk_bflb.c:266-288 | a successful enable leaves the clock gated on and, when it has a reset field, out of reset |
| ClkSpec.EnableParentFirst | drivers/clk/bflb/clk_bflb.c:273-280 | a local parent is enabled, with all its writes, before the clock; its failure is returned unchanged |
| ClkSpec.FillKeepsEnable | drivers/clk/bflb/clk_bflb.c:273-278 | filling the parent cache changes neither the outcome nor the writes of an enable |
| ClkSpec.FirstMatch | drivers/clk/bflb/clk_bflb.c:224-228 | the first selector value whose parent resolves to the target; none exactly when no value does |
| ClkSpec.SelectWriteCoherent | drivers/clk/bflb/clk_bflb.c:232-236 | writing the selector and recording the resolved parent keeps the controller invariant, whatever value is written |
| ClkSpec.SelectWriteIntended | drivers/clk/bflb/clk_bflb.c:232-234 | corrected set-parent write: with the selector's lowest bit as multiplier, the selector reads back sel and nothing else changes |
| ClkBflb.ClockDomain.constructor | drivers/clk/bflb/clk_bflb.c:376-388 | probe: one zeroed handle per clock as the parent cache, with the invariant established |
| ClkBflb.ClockDomain.GetParent | drivers/clk/bflb/clk_bflb.c:188-211 | returns the reported parent and caches it when it was resolved; the cache only gains parents the registers designate |
| ClkBflb.ClockDomain.GetRate | drivers/clk/bflb/clk_bflb.c:132-158 | returns the rate the specification assigns the clock; cache entries of clocks ranked above it are untouched, and a fixed-rate clock touches no cache entry |
| ClkBflb.ClockDomain.GetParentRate | drivers/clk/bflb/clk_bflb.c:141-143 | returns the rate of the reported parent, or `-ENODEV` when there is none; cache entries of clocks ranked above it are untouched |
| ClkBflb.ClockDomain.SelectorRate | drivers/clk/bflb/clk_bflb.c:99-108 | a selector is usable exactly when its parent resolves and has a non-error rate; it then offers that rate after the fixed divider; only cache entries of clocks ranked below it may be filled |
| ClkBflb.ClockDomain.ScanSelector | drivers/clk/bflb/clk_bflb.c:99-119 | one selector pass of the search: afterwards the best so far covers every setting of the rows up to this one, and an unchanged best keeps its setting |
| ClkBflb.ClockDomain.CalcRate | drivers/clk/bflb/clk_bflb.c:80-123 | the result is the best candidate: no larger than the request, no candidate within the request is larger, and it is the first setting reaching it; on 0 the out-parameters are untouched; the clock's own cache entry and those of clocks not ranked below it are untouched |
| ClkBflb.ClockDomain.RoundRate | drivers/clk/bflb/clk_bflb.c:125-130 | returns the best candidate rate within the request; the clock's own cache entry is untouched |
| ClkBflb.ClockDomain.SetRate | drivers/clk/bflb/clk_bflb.c:160-186 | always returns 0; writes nothing when the best rate is 0; otherwise writes the best selector and divider fields; the clock's cache entry is not updated; when it held no parent, or the clock has no selector, the clock then runs at the best rate (given the parent's own rate is unchanged) |
| ClkBflb.ClockDomain.SetParent | drivers/clk/bflb/clk_bflb.c:213-239 | `-ENOENT` and no change when no selector resolves to the target; otherwise writes the selector with the given multiplier and records the target as current parent |
| ClkBflb.ClockDomain.SetParentIntended | drivers/clk/bflb/clk_bflb.c:213-239 | corrected set-parent: on success the selector register designates exactly the target parent, only that field of that register changes, and the target is recorded |
| ClkBflb.ClockDomain.ClrSetBits32 | drivers/clk/bflb/clk_bflb.c:246-247 | one clear-and-set of one register; nothing else changes |
| ClkBflb.ClockDomain.SetGate | drivers/clk/bflb/clk_bflb.c:241-250 | returns 0 after the single gate write |
| ClkBflb.ClockDomain.PllToggleReset | drivers/clk/bflb/clk_bflb.c:252-264 | returns 0 after the three reset writes in order |
| ClkBflb.ClockDomain.Enable | drivers/clk/bflb/clk_bflb.c:266-288 | returns the code and makes exactly the writes of the enable specification (parent chain first, then gate and reset) |
| ClkBflb.ClockDomain.EnableParent | drivers/clk/bflb/clk_bflb.c:271-278 | the parent step of enable: enables the reported parent (through the engine when local, the framework otherwise) with exactly its writes, and does nothing without a parent |
| ClkBflb.ClockDomain.Disable | drivers/clk/bflb/clk_bflb.c:290-293 | returns 0 after gating the clock off, and does not touch its parent |
| ClkBflb.FindParent | drivers/clk/bflb/clk_bflb.c:224-230 | the loop stops at the first selector resolving to the target, or at the count when none does |
| ClkBflb.ScanDivs | drivers/clk/bflb/clk_bflb.c:110-119 | after one row the best so far covers every setting up to that row; an unchanged best keeps its setting |
| Bl808.HbnOk | drivers/clk/bflb/clk_bl808.c:194-242 | the HBN fixture is a well-formed, ranked table |
| Bl808.GlbOk | drivers/clk/bflb/clk_bl808.c:150-168 | the GLB fixture is a well-formed, ranked table |
| Bl808.XclkParents | drivers/clk/bflb/clk_bflb.c:39-45 | a `BIT(0)` selector gives two parents, and a clock without a selector gives one |
| Bl808.XtalRate | drivers/clk/bflb/clk_bflb.c:132-158 | the crystal's only parent is the external crystal of the framework, and it runs at that clock's 40 MHz |
| Bl808.XclkCands | drivers/clk/bflb/clk_bflb.c:94-120 | XCLK's candidate table is 32 MHz from RC32M and 40 MHz from the crystal |
| Bl808.XclkRounds40 | drivers/clk/bflb/clk_bflb.c:113-122 | a 40 MHz request on XCLK chooses the crystal (sel 1, div 0) |
| Bl808.WifiPllDiv5Rate | drivers/clk/bflb/clk_bl808.c:154-160 | the fixed divide-by-5 output of the 480 MHz WiFi PLL runs at 96 MHz |
| Bl808.WifiPllRoundsToZero | drivers/clk/bflb/clk_bflb.c:94-122 | a fixed-rate PLL without parents rounds every request to 0 while still reporting 480 MHz |
| Bl808.UsbPllEnable | drivers/clk/bflb/clk_bflb.c:266-288 | enabling the USB PLL gates the WiFi PLL on first, then gates itself on and pulses its reset |
| Bl808.UsbPllHitsErrPtr | drivers/clk/bflb/clk_bflb.c:271-274 | as written: enabling USBPLL enables WIFIPLL, whose parent lookup fails with `-ENOENT`, so the enable reaches the unchecked error pointer |
| Bl808.SetRateLeavesStaleParent | drivers/clk/bflb/clk_bflb.c:160-186 | as written: XCLK switched to the crystal by a 40 MHz set-rate still reports RC32M and 32 MHz |
| Bl808.SetRateRecordsParent | drivers/clk/bflb/clk_bflb.c:160-186 | corrected: recording the parent set-rate selects makes XCLK report the crystal and 40 MHz |
| Bl808.XtalIsSel1 | drivers/clk/bflb/clk_bflb.c:224-228 | the crystal is XCLK's selector value 1 |
| Bl808.SetParentLsbZero | drivers/clk/bflb/clk_bflb.c:219-234 | as written with a zero multiplier: XCLK's selector stays 0 (RC32M) while the cache records the crystal |
| Bl808.SetParentLsbTwo | drivers/clk/bflb/clk_bflb.c:219-234 | as written with multiplier 2: the write sets HBN_ROOT's selector bit and leaves XCLK's at 0 |
| Bl808.SetParentLowBit | drivers/clk/bflb/clk_bflb.c:219-234 | corrected: with the lowest bit as multiplier, XCLK's selector becomes 1 (the crystal) and HBN_ROOT's is kept |

## Left out

- `bflb_clk_dump`, `bflb_clk_bind`, `bflb_clk_of_to_plat` and the driver and ops tables (clk_bflb.c:295-374, 390-432): console output, device-tree parsing and driver registration, not clock behaviour.
- `udelay` in the reset pulse: time is not modelled; only the order of the three writes is.
- The clock framework is the abstract `Provider`; `drivers/clk/clk-uclass.c` is not part of this model. `clk_get_parent_rate` of a local clock is modelled as the rate of the parent the engine reports, or `-ENODEV` without one.
- The `Provider`'s rate and enable of a foreign clock cannot depend on this controller's registers or cache. On the BL808 the GLB clocks derive from `HBN_ROOT` of another controller, so a foreign parent's rate can in fact follow writes made here; for a foreign parent the "parent rate unchanged" condition of the set-rate round trips therefore always holds in the model.
- The framework's per-handle rate memo is not modelled: every rate is computed from the registers.
- ClkBflb.ClockDomain.Enable: when `get_parent` fails it returns an `ERR_PTR`, which `bflb_clk_enable` passes to `clk_valid` unchecked (clk_bflb.c:207, 273-274); that dereferences an invalid pointer. The model follows the evidently intended `IS_ERR` test that `bflb_clk_dump` makes (clk_bflb.c:313): no parent enable and no error. See the third finding.
- ClkBflb.ClockDomain.constructor: the `-ENOMEM` path of `calloc` in probe is not modelled (allocation cannot fail in Dafny).
- Register words are sequences of 32 bits rather than `bv32`, so that the field lemmas are proved bit by bit. The register file is a map from offset to word.
- ClkTypes.DataOk: masks are assumed contiguous and narrower than 32 bits, as in the BL808 tables; `CountParents` still states the full-width wrap to 0.
- ClkTypes.ResolveParent: requires the selector value to lie within the parent list. The C code does not check this; the table invariant guarantees it for every value the engine passes.
- `NO_PARENT` and `FW_PARENT_BASE` come from SoC headers that are not part of this model, so they are parameters of `Env`. The fixtures fix them at 255 and 200.
- The fixtures in `bl808.dfy` are subsets of the BL808 tables. Their dt-binding ids, register offsets other than the HBN selector bits, gate and reset masks, and device numbers are chosen for the fixtures.
- ClkSpec.SetRateRoundTrip: proved under the condition that the chosen parent's own rate is unchanged by the writes. It can change when that parent's fields share the clock's register. The same applies to ClkSpec.SetRateFreshRoundTrip and ClkBflb.ClockDomain.SetRate. All three also ask that the selector and divider fields do not overlap when they share a register.
- ClkSpec.SetRateFreshRoundTrip: the round trips are stated only for clocks without a fixed rate (`rate == 0`). `calc_rate` ignores `data->rate` (clk_bflb.c:80-122) while `get_rate` returns it (clk_bflb.c:138-139). So on a fixed-rate clock with parents, `set_rate` programs fields that `get_rate` never reads. The same applies to ClkSpec.SetRateRoundTrip and ClkBflb.ClockDomain.SetRate.
- ClkSpec.NodeRate: like the source, it reads the divider register only when the clock has a divider field, but its `requires` asks for the divider offset to be in the register file even when there is none. The controller invariant guarantees this, since the register file holds every offset the table names.
- ClkBflb.ClockDomain.SetParent: the uninitialised multiplier `sel_lsb` is a parameter `lsb`, so the contract holds for every value it could have.
- ClkBflb.ClockDomain.SetRate: the selected setting and best rate are ghost out-parameters; the C function returns only 0. The same applies to ClkBflb.ClockDomain.RoundRate's setting.

## Findings

| source | as written | input that shows it | evidently intended | confidence | as-written member | corrected member |
|---|---|---|---|---|---|---|
| drivers/clk/bflb/clk_bflb.c:219-234 | `set_parent` multiplies the selector value by `sel_lsb`, which is declared but never assigned | Setting XCLK (selector `BIT(0)` at HBN offset 0x30) to the crystal, selector value 1. If the stale value is 0, the selector stays on RC32M while the cache records the crystal. If it is 2, the write sets `HBN_ROOT`'s selector bit and XCLK does not move. | `sel_lsb` is the lowest bit of `sel_mask`, as `set_rate` computes it | not executed; high | ClkBflb.ClockDomain.SetParent, Bl808.SetParentLsbZero, Bl808.SetParentLsbTwo | ClkBflb.ClockDomain.SetParentIntended, ClkSpec.SelectWriteIntended, Bl808.SetParentLowBit |
| drivers/clk/bflb/clk_bflb.c:160-186 | `set_rate` programs a new selector value but leaves the cached current parent as it was | XCLK with RC32M cached and a 40 MHz request: the crystal (sel 1, div 0) is written, yet the reported parent stays RC32M and the reported rate stays 32 MHz | record the parent the new selector designates, as `set_parent` does | not executed; medium | ClkBflb.ClockDomain.SetRate, Bl808.SetRateLeavesStaleParent | ClkSpec.SetRateState, ClkSpec.SetRateRoundTrip, Bl808.SetRateRecordsParent |
| drivers/clk/bflb/clk_bflb.c:271-278 | `enable` passes the result of `get_parent` to `clk_valid` without testing `IS_ERR`, although `get_parent` returns `ERR_PTR` when the parent lookup fails (clk_bflb.c:207) | Enabling USBPLL first enables its parent WIFIPLL. WIFIPLL has no parent list (clk_bl808.c:150-153), so its `get_parent` returns `ERR_PTR(-ENOENT)`, and `clk_valid` reads through that pointer. | skip the parent enable when `IS_ERR(parent)`, as `bflb_clk_dump` does (clk_bflb.c:313) | not executed; medium | ClkSpec.EnableHitsErrPtr, Bl808.UsbPllHitsErrPtr | ClkSpec.EnableSpec, ClkBflb.ClockDomain.Enable, Bl808.UsbPllEnable |
