// The data the Bouffalo clock engine works on: clock handles, the constant
// per-clock descriptor an SoC driver supplies, the platform data of one clock
// controller, and the part of the clock framework the engine calls into for
// clocks of other controllers. Also the engine's pure helpers: the descriptor
// lookup, `request`, the parent count and parent resolution.

module ClkTypes {
  import opened Bits

  // ---- C scalar types and error codes ----

  const ENOENT: int := 2
  const ENODEV: int := 19
  const EINVAL: int := 22

  const ULongLimit: int := 0x1_0000_0000_0000_0000

  /** A 64-bit `ulong`, the type of clock rates. */
  type ULong = x: int | 0 <= x < 0x1_0000_0000_0000_0000

  /** `IS_ERR_VALUE`: the top 4095 values of a `ulong` are negated error codes. */
  predicate IsErrValue(x: ULong) {
    x >= ULongLimit - 4095
  }

  /** `(ulong)-e` for an error number `e`. */
  function NegErr(e: int): (r: ULong)
    requires 1 <= e <= 4095
    ensures IsErrValue(r) && ULongLimit - r == e
  {
    ULongLimit - e
  }

  /** Unsigned division of a rate by a positive divisor. */
  function UDiv(a: ULong, b: int): (r: ULong)
    requires b >= 1
    ensures r <= a
  {
    DivBound(a, b);
    a / b
  }

  lemma UDivOne(a: ULong)
    ensures UDiv(a, 1) == a
  {
  }

  lemma DivBound(a: int, b: int)
    requires a >= 0 && b >= 1
    ensures 0 <= a / b <= a
  {
    var q, r := a / b, a % b;
    assert a == b * q + r && 0 <= r < b;
    if q < 0 {
      MulNegative(b, q);
      assert false;
    }
    MulAtLeastSelf(b, q);
  }

  lemma {:induction false} MulNegative(b: int, q: int)
    requires b >= 1 && q < 0
    ensures b * q <= -b
    decreases -q
  {
    if q < -1 {
      MulNegative(b, q + 1);
      assert b * q == b * (q + 1) - b;
    }
  }

  lemma {:induction false} MulAtLeastSelf(b: int, q: int)
    requires b >= 1 && q >= 0
    ensures b * q >= q
    decreases q
  {
    if q > 0 {
      MulAtLeastSelf(b, q - 1);
      assert b * q == b * (q - 1) + b;
    }
  }

  datatype Option<T> = None | Some(value: T)

  /** A value, or the negative error code a C function returns instead. */
  datatype Result<T> = Ok(value: T) | Err(code: int)

  // ---- clock handles ----

  /** The `udevice` a handle points to; `NoDev` is the NULL device of a
      zero-initialised handle. Devices are told apart by a number. */
  datatype Dev = NoDev | Dev(n: nat)

  /** `struct clk`: a device and a clock number within it. */
  datatype Clk = Clk(dev: Dev, id: nat)

  /** `clk_valid`: the handle points to a device. */
  predicate ClkValid(c: Clk) {
    c.dev.Dev?
  }

  /** The handle `calloc` produces. */
  const EmptyClk: Clk := Clk(NoDev, 0)

  // ---- descriptors ----

  /** `struct bflb_clk_data`: one clock of a controller. `parents` lists
      parent ids (`None` is a NULL list); each register field is an offset
      from the controller base and a mask; a zero `fixedDiv` means no fixed
      divider and a zero `rate` means the rate is derived from the parent. */
  datatype ClkData = ClkData(
    name: string,
    parents: Option<seq<nat>>,
    selReg: nat, selMask: Word,
    divReg: nat, divMask: Word,
    enReg: nat, enMask: Word,
    rstReg: nat, rstMask: Word,
    fixedDiv: nat,
    rate: ULong)

  /** `struct bflb_clk_desc`: the clocks of a controller and the names of
      the clocks it takes from other controllers. */
  datatype Desc = Desc(clks: seq<ClkData>, fwParents: seq<string>)

  /** The clock framework, as far as the engine uses it for clocks it does
      not own: `clk_get_by_name` on the controller's device, and
      `clk_get_rate` and `clk_enable` of a clock of another controller. */
  datatype Provider = Provider(
    byName: string -> Result<Clk>,
    rate: Clk -> ULong,
    enable: Clk -> int)

  /** One bound clock controller: its descriptor, its device, the framework
      around it, and the two parent-id constants of the SoC headers
      (`NO_PARENT` and `FW_PARENT_BASE`), which are not part of this model
      and are therefore parameters. */
  datatype Env = Env(desc: Desc, dev: nat, prov: Provider, noParent: nat, fwBase: nat)

  /** A handle to a clock of this controller. */
  predicate IsLocal(env: Env, c: Clk) {
    c.dev == Dev(env.dev)
  }

  // ---- well-formedness ----

  /** What the engine needs of one descriptor entry: usable field masks, a
      parent list (when present) long enough for every selector value and
      made of byte-sized ids, and a u32 fixed divider. */
  predicate DataOk(d: ClkData) {
    && FieldMask(d.selMask) && FieldMask(d.divMask)
    && (d.parents.Some? ==>
          && |d.parents.value| >= FieldCount(d.selMask)
          && forall k :: 0 <= k < |d.parents.value| ==> d.parents.value[k] < 256)
    && d.fixedDiv < 0x1_0000_0000
  }

  /** What the engine needs of the framework: a successful lookup by name
      yields a valid handle to another controller, and a failed one a
      negative error code. */
  ghost predicate ProviderOk(env: Env) {
    forall name: string :: env.prov.byName(name).Ok? ==>
      ClkValid(env.prov.byName(name).value) && !IsLocal(env, env.prov.byName(name).value)
  }

  ghost predicate ProviderErrOk(env: Env) {
    forall name: string :: env.prov.byName(name).Err? ==> env.prov.byName(name).code < 0
  }

  /** The local parent links of the descriptor form no cycle: `rank`
      decreases from every clock to every clock of this controller it lists
      as a parent. */
  predicate Ranked(env: Env, rank: seq<nat>) {
    && |rank| == |env.desc.clks|
    && forall i, k :: 0 <= i < |env.desc.clks| && env.desc.clks[i].parents.Some?
         && 0 <= k < |env.desc.clks[i].parents.value|
         && env.desc.clks[i].parents.value[k] != env.noParent
         && env.desc.clks[i].parents.value[k] < env.fwBase
         ==> env.desc.clks[i].parents.value[k] < |env.desc.clks|
             && rank[env.desc.clks[i].parents.value[k]] < rank[i]
  }

  ghost predicate DescOk(env: Env) {
    && (forall i :: 0 <= i < |env.desc.clks| ==> DataOk(env.desc.clks[i]))
    && ProviderOk(env) && ProviderErrOk(env)
  }

  /** Every register offset of every clock is one the register file holds. */
  predicate RegsOk(env: Env, regs: map<nat, Word>) {
    forall i :: 0 <= i < |env.desc.clks| ==>
      && env.desc.clks[i].selReg in regs && env.desc.clks[i].divReg in regs
      && env.desc.clks[i].enReg in regs && env.desc.clks[i].rstReg in regs
  }

  // ---- pure helpers of the engine ----

  /** `bflb_clk_get_data`: the descriptor entry of a clock, or none for an
      id past the table. */
  function GetData(desc: Desc, c: Clk): (r: Option<ClkData>)
    ensures r.Some? <==> c.id < |desc.clks|
    ensures r.Some? ==> r.value == desc.clks[c.id]
  {
    if c.id >= |desc.clks| then None else Some(desc.clks[c.id])
  }

  /** `bflb_clk_request`: a handle is accepted exactly when its id names a
      descriptor entry, and refused with `-EINVAL` otherwise. */
  function Request(desc: Desc, c: Clk): (r: int)
    ensures r == 0 <==> c.id < |desc.clks|
    ensures r != 0 ==> r == -EINVAL
  {
    if GetData(desc, c).Some? then 0 else -EINVAL
  }

  /** `bflb_clk_count_parents`: one parent without a selector, otherwise
      one per value of the selector field, in u32 arithmetic. */
  function CountParents(d: ClkData): (r: int)
    ensures d.selMask == Zero ==> r == 1
    ensures d.selMask != Zero && FieldMask(d.selMask) ==> r == Pow2(Width(d.selMask))
    ensures d.selMask != Zero && Contiguous(d.selMask) && Width(d.selMask) == 32 ==> r == 0
  {
    FieldCountCases(d.selMask);
    FieldCount(d.selMask)
  }

  /** `bflb_clk_resolve_parent`: the handle of parent number `sel`. An id
      below `fwBase` is a clock of this controller, an id in the following
      `|fwParents|` values is looked up by name in the framework, and
      anything else is refused. */
  function ResolveParent(env: Env, d: ClkData, sel: nat): (r: Result<Clk>)
    requires d.parents.Some? ==> sel < |d.parents.value|
    ensures d.parents.None? ==> r == Err(-ENOENT)
    ensures d.parents.Some? && d.parents.value[sel] == env.noParent ==> r == Err(-ENOENT)
    ensures (d.parents.Some? && d.parents.value[sel] != env.noParent
             && d.parents.value[sel] < env.fwBase) ==> r == Ok(Clk(Dev(env.dev), d.parents.value[sel]))
    ensures (d.parents.Some? && d.parents.value[sel] != env.noParent
             && d.parents.value[sel] >= env.fwBase + |env.desc.fwParents|) ==> r == Err(-EINVAL)
    ensures (d.parents.Some? && d.parents.value[sel] != env.noParent
             && env.fwBase <= d.parents.value[sel] < env.fwBase + |env.desc.fwParents|) ==>
      r == env.prov.byName(env.desc.fwParents[d.parents.value[sel] - env.fwBase])
    ensures r.Ok? && ProviderOk(env) ==> ClkValid(r.value)
    ensures r.Ok? && ProviderOk(env) && IsLocal(env, r.value) ==>
      d.parents.Some? && r.value.id == d.parents.value[sel]
      && r.value.id != env.noParent && r.value.id < env.fwBase
    ensures r.Err? && ProviderErrOk(env) ==> r.code < 0
  {
    if d.parents.None? then Err(-ENOENT)
    else
      var id := d.parents.value[sel];
      if id == env.noParent then Err(-ENOENT)
      else if id < env.fwBase then Ok(Clk(Dev(env.dev), id))
      else if id < env.fwBase + |env.desc.fwParents| then
        env.prov.byName(env.desc.fwParents[id - env.fwBase])
      else Err(-EINVAL)
  }

  /** A parent resolved for a clock of a well-formed, ranked controller is
      either another controller's clock or one of lower rank here. */
  lemma ResolveRanked(env: Env, rank: seq<nat>, i: nat, sel: nat)
    requires DescOk(env) && Ranked(env, rank) && i < |env.desc.clks|
    requires env.desc.clks[i].parents.Some? ==> sel < |env.desc.clks[i].parents.value|
    ensures var r := ResolveParent(env, env.desc.clks[i], sel);
      r.Ok? && IsLocal(env, r.value) ==>
        r.value.id < |env.desc.clks| && rank[r.value.id] < rank[i]
  {
  }
}
