// Clocks of the BL808 tables the engine is driven by, as fixtures for the
// engine's model: a part of the HBN controller (XCLK, HBN_ROOT and XTAL,
// whose two selectors share one register) and a part of the GLB controller
// (WIFIPLL with its fixed-divided and reset-pulsed children). The
// dt-binding clock numbers, the register offsets other than the HBN
// selector bits, the gate and reset masks, the device numbers and the two
// parent-id constants are not part of this model; the values below are
// chosen for the fixtures.

module Bl808 {
  import opened Bits
  import opened ClkTypes
  import opened ClkSpec

  // ---- parent-id constants and the firmware parents ----

  const NoParent: nat := 255
  const FwBase: nat := 200

  const FwExtXtal: nat := FwBase + 0
  const FwPdsPll: nat := FwBase + 17
  const FwRc32m: nat := FwBase + 16

  /** `bl808_fw_parents`, in the order of the `FW_*` ids. */
  const FwParents: seq<string> := [
    "ext_xtal", "ext_xtal32k",
    "bclk", "dig_32k", "aupll_div1", "cpupll_400m", "dsppll",
    "muxpll_160m", "muxpll_240m", "muxpll_320m", "wifipll_240m", "wifipll_320m",
    "xclk", "hbn_root", "hbn_uart", "xtal",
    "rc32m", "pds_pll"]

  // ---- devices and the framework around them ----

  const GlbDev: nat := 1
  const HbnDev: nat := 2
  const PdsDev: nat := 3
  const XtalDev: nat := 4

  const Rc32m: Clk := Clk(Dev(PdsDev), 0)
  const PdsPll: Clk := Clk(Dev(PdsDev), 1)
  const ExtXtal: Clk := Clk(Dev(XtalDev), 0)

  /** A framework in which the PDS controller provides `rc32m` (32 MHz)
      and `pds_pll`, and a fixed 40 MHz oscillator provides `ext_xtal`. */
  const Fw: Provider := Provider(
    n => if n == "rc32m" then Ok(Rc32m)
         else if n == "pds_pll" then Ok(PdsPll)
         else if n == "ext_xtal" then Ok(ExtXtal)
         else Err(-ENOENT),
    c => if c == Rc32m then 32_000_000 else if c == ExtXtal then 40_000_000 else 0,
    c => 0)

  // ---- the HBN controller ----

  const HbnGlb: nat := 0x30

  const Xclk: nat := 0
  const HbnRoot: nat := 1
  const Xtal: nat := 2

  const XclkData: ClkData :=
    ClkData("XCLK", Some([FwRc32m, Xtal]), HbnGlb, Bit(0), 0, Zero, 0, Zero, 0, Zero, 0, 0)
  const HbnRootData: ClkData :=
    ClkData("HBN_ROOT", Some([Xclk, FwPdsPll]), HbnGlb, Bit(1), 0, Zero, 0, Zero, 0, Zero, 0, 0)
  const XtalData: ClkData :=
    ClkData("XTAL", Some([FwExtXtal]), 0, Zero, 0, Zero, 0, Zero, 0, Zero, 0, 0)

  const Hbn: Env := Env(Desc([XclkData, HbnRootData, XtalData], FwParents), HbnDev, Fw, NoParent, FwBase)
  const HbnRank: seq<nat> := [1, 2, 0]

  /** The register file of the HBN fixture holds the offsets its clocks use. */
  predicate HbnRegs(regs: map<nat, Word>) {
    0 in regs && HbnGlb in regs
  }

  lemma FwOk(env: Env)
    requires env.prov == Fw && env.dev != PdsDev && env.dev != XtalDev
    ensures ProviderOk(env) && ProviderErrOk(env)
  {
  }

  /** The HBN fixture is a well-formed, acyclic controller. */
  lemma HbnOk()
    ensures DescOk(Hbn) && Ranked(Hbn, HbnRank)
  {
    HbnData();
    FwOk(Hbn);
    HbnRanked();
  }

  lemma HbnData()
    ensures forall i :: 0 <= i < |Hbn.desc.clks| ==> DataOk(Hbn.desc.clks[i])
  {
    forall i | 0 <= i < |Hbn.desc.clks|
      ensures DataOk(Hbn.desc.clks[i])
    {
      if i == Xclk {
        XclkDataOk();
      } else if i == HbnRoot {
        HbnRootDataOk();
      } else {
        XtalDataOk();
      }
    }
  }

  lemma XclkDataOk()
    ensures DataOk(XclkData)
  {
    BitField(Zero, 0);
    SelectorData(XclkData);
  }

  lemma HbnRootDataOk()
    ensures DataOk(HbnRootData)
  {
    BitField(Zero, 1);
    SelectorData(HbnRootData);
  }

  lemma XtalDataOk()
    ensures DataOk(XtalData)
  {
    ZeroField();
  }

  /** A clock with a one-bit selector and nothing else, and two byte-sized
      parents, is well formed. */
  lemma SelectorData(d: ClkData)
    requires FieldMask(d.selMask) && FieldCount(d.selMask) == 2 && d.divMask == Zero && d.fixedDiv == 0
    requires d.parents.Some? && |d.parents.value| == 2
    requires d.parents.value[0] < 256 && d.parents.value[1] < 256
    ensures DataOk(d)
  {
    ZeroField();
    forall k | 0 <= k < |d.parents.value|
      ensures d.parents.value[k] < 256
    {
      assert k == 0 || k == 1;
    }
  }

  lemma HbnRanked()
    ensures Ranked(Hbn, HbnRank)
  {
    forall i, k | 0 <= i < 3 && Hbn.desc.clks[i].parents.Some? && 0 <= k < |Hbn.desc.clks[i].parents.value|
      && Hbn.desc.clks[i].parents.value[k] != NoParent && Hbn.desc.clks[i].parents.value[k] < FwBase
      ensures Hbn.desc.clks[i].parents.value[k] < 3 && HbnRank[Hbn.desc.clks[i].parents.value[k]] < HbnRank[i]
    {
      assert i == Xclk || i == HbnRoot || i == Xtal;
    }
  }

  lemma HbnCoherent(s: Snap)
    requires HbnRegs(s.regs) && |s.cache| == 3
    requires !IsLocal(Hbn, s.cache[Xclk]) || s.cache[Xclk] == Clk(Dev(HbnDev), Xtal)
    requires !IsLocal(Hbn, s.cache[HbnRoot]) || s.cache[HbnRoot] == Clk(Dev(HbnDev), Xclk)
    requires !IsLocal(Hbn, s.cache[Xtal])
    ensures Coherent(Hbn, HbnRank, s)
  {
    HbnOk();
    forall i | 0 <= i < 3
      ensures Hbn.desc.clks[i].selReg in s.regs && Hbn.desc.clks[i].divReg in s.regs
      ensures Hbn.desc.clks[i].enReg in s.regs && Hbn.desc.clks[i].rstReg in s.regs
    {
      assert i == Xclk || i == HbnRoot || i == Xtal;
    }
    assert RegsOk(Hbn, s.regs);
    forall i | 0 <= i < 3 && IsLocal(Hbn, s.cache[i])
      ensures s.cache[i].id < 3 && HbnRank[s.cache[i].id] < HbnRank[i]
    {
      assert i == Xclk || i == HbnRoot;
    }
  }

  /** A one-bit selector gives XCLK two parents. */
  lemma XclkParents()
    ensures CountParents(XclkData) == 2 && CountParents(XtalData) == 1
  {
    BitField(Zero, 0);
  }

  /** XTAL runs at the 40 MHz of the external oscillator, its only parent. */
  lemma XtalRate(s: Snap)
    requires Coherent(Hbn, HbnRank, s)
    requires !ClkValid(s.cache[Xtal]) || s.cache[Xtal] == ExtXtal
    ensures EffParent(Hbn, s, Xtal) == Ok(ExtXtal)
    ensures RateOf(Hbn, HbnRank, s, Xtal) == 40_000_000
  {
    ZeroField();
    assert LiveSel(Hbn, s, Xtal) == 0;
    assert FwParents[FwExtXtal - FwBase] == "ext_xtal";
    RateOfStep(Hbn, HbnRank, s, Xtal);
  }

  /** The parents of XCLK: RC32M, looked up by name, and XTAL of this
      controller. */
  lemma XclkParentHandles()
    ensures ResolveParent(Hbn, XclkData, 0) == Ok(Rc32m)
    ensures ResolveParent(Hbn, XclkData, 1) == Ok(Clk(Dev(HbnDev), Xtal))
  {
    assert FwParents[FwRc32m - FwBase] == "rc32m";
  }

  /** XCLK has two selector values and no divider. */
  lemma XclkCounts()
    ensures DataOk(Hbn.desc.clks[Xclk])
    ensures Sels(Hbn.desc.clks[Xclk]) == 2 && Divs(Hbn.desc.clks[Xclk]) == 1
  {
    BitField(Zero, 0);
    SelectorData(XclkData);
    ZeroField();
  }

  /** What the two parents of XCLK offer: RC32M its 32 MHz, XTAL its 40 MHz. */
  lemma XclkSelRates(s: Snap)
    requires Coherent(Hbn, HbnRank, s)
    requires !ClkValid(s.cache[Xtal]) || s.cache[Xtal] == ExtXtal
    ensures Sels(Hbn.desc.clks[Xclk]) == 2
    ensures SelRate(Hbn, HbnRank, s, Xclk, 0) == Some(32_000_000)
    ensures SelRate(Hbn, HbnRank, s, Xclk, 1) == Some(40_000_000)
  {
    XclkCounts();
    XclkParentHandles();
    Rc32mOffer(s);
    XtalOffer(s);
  }

  lemma Rc32mOffer(s: Snap)
    requires Coherent(Hbn, HbnRank, s) && Sels(Hbn.desc.clks[Xclk]) == 2
    requires ResolveParent(Hbn, XclkData, 0) == Ok(Rc32m)
    ensures SelRate(Hbn, HbnRank, s, Xclk, 0) == Some(32_000_000)
  {
    SelRateFrom(Hbn, HbnRank, s, Xclk, 0, Rc32m);
    assert HandleRate(Hbn, HbnRank, s, Rc32m) == 32_000_000;
  }

  lemma XtalOffer(s: Snap)
    requires Coherent(Hbn, HbnRank, s) && Sels(Hbn.desc.clks[Xclk]) == 2
    requires !ClkValid(s.cache[Xtal]) || s.cache[Xtal] == ExtXtal
    requires ResolveParent(Hbn, XclkData, 1) == Ok(Clk(Dev(HbnDev), Xtal))
    ensures SelRate(Hbn, HbnRank, s, Xclk, 1) == Some(40_000_000)
  {
    XtalRate(s);
    SelRateFrom(Hbn, HbnRank, s, Xclk, 1, Clk(Dev(HbnDev), Xtal));
  }

  /** The settings `bflb_clk_calc_rate` weighs for XCLK: one divider value
      for each of its two parents. */
  lemma XclkCands(s: Snap)
    requires Coherent(Hbn, HbnRank, s)
    requires !ClkValid(s.cache[Xtal]) || s.cache[Xtal] == ExtXtal
    ensures XclkTable(Cands(Hbn, HbnRank, s, Xclk))
  {
    XclkCounts();
    XclkSelRates(s);
    XclkCand(s, 0, 32_000_000);
    XclkCand(s, 1, 40_000_000);
  }

  /** A table of two selector rows of one divider each, offering 32 MHz
      and 40 MHz. */
  predicate XclkTable(t: seq<seq<Option<ULong>>>) {
    && |t| == 2 && |t[0]| == 1 && |t[1]| == 1
    && t[0][0] == Some(32_000_000) && t[1][0] == Some(40_000_000)
  }

  lemma XclkCand(s: Snap, sel: nat, rate: ULong)
    requires Coherent(Hbn, HbnRank, s) && sel < 2
    requires Sels(Hbn.desc.clks[Xclk]) == 2 && Divs(Hbn.desc.clks[Xclk]) == 1
    requires SelRate(Hbn, HbnRank, s, Xclk, sel) == Some(rate)
    ensures |Cands(Hbn, HbnRank, s, Xclk)[sel]| == 1
    ensures Cands(Hbn, HbnRank, s, Xclk)[sel][0] == Some(rate)
  {
    CandsAt(Hbn, HbnRank, s, Xclk, sel, 0);
    UDivOne(rate);
  }

  /** Asking XCLK for 40 MHz selects XTAL, undivided. */
  lemma XclkRounds40(t: seq<seq<Option<ULong>>>, best: ULong, sel: nat, div: nat)
    requires XclkTable(t)
    requires BestIn(t, 40_000_000, best, sel, div)
    ensures best == 40_000_000 && sel == 1 && div == 0
  {
    assert InTable(t, 1, 0) && Before(1, 0, |t|, 0);
  }

  // ---- `bflb_clk_set_rate` leaves a stale parent cached ----

  /** The HBN controller with RC32M recorded as XCLK's current parent, as
      `bflb_clk_get_parent` leaves it while XCLK's selector is 0. */
  function XclkOnRc32m(regs: map<nat, Word>): (s: Snap)
    requires HbnRegs(regs)
    ensures Coherent(Hbn, HbnRank, s) && s.cache[Xclk] == Rc32m && !ClkValid(s.cache[Xtal])
  {
    HbnCoherent(Snap(regs, [Rc32m, EmptyClk, EmptyClk]));
    Snap(regs, [Rc32m, EmptyClk, EmptyClk])
  }

  /** Asking XCLK for 40 MHz selects its parent XTAL, undivided. */
  lemma XclkBest40(regs: map<nat, Word>, best: ULong, sel: nat, div: nat)
    requires HbnRegs(regs)
    requires BestIn(Cands(Hbn, HbnRank, XclkOnRc32m(regs), Xclk), 40_000_000, best, sel, div)
    ensures best == 40_000_000 && sel == 1 && div == 0
  {
    XclkCands(XclkOnRc32m(regs));
    XclkRounds40(Cands(Hbn, HbnRank, XclkOnRc32m(regs), Xclk), best, sel, div);
  }

  /** As written: `bflb_clk_set_rate` for 40 MHz programs XCLK's selector
      to XTAL, but the cache, which the search only ever fills, still
      records RC32M, so every later `bflb_clk_get_parent` reports RC32M and
      `bflb_clk_get_rate` reports 32 MHz. */
  lemma SetRateLeavesStaleParent(regs: map<nat, Word>, c2: seq<Clk>, best: ULong, sel: nat, div: nat)
    requires HbnRegs(regs)
    requires CacheFills(Hbn, XclkOnRc32m(regs), c2)
    requires BestIn(Cands(Hbn, HbnRank, XclkOnRc32m(regs), Xclk), 40_000_000, best, sel, div)
    ensures best == 40_000_000 && sel == 1 && div == 0
    ensures var s2 := Snap(ApplyAll(regs, SetRateOps(XclkData, 1, 0)), c2);
      && Coherent(Hbn, HbnRank, s2)
      && LiveSel(Hbn, s2, Xclk) == 1
      && EffParent(Hbn, s2, Xclk) == Ok(Rc32m)
      && RateOf(Hbn, HbnRank, s2, Xclk) == 32_000_000
  {
    XclkBest40(regs, best, sel, div);
    var s := XclkOnRc32m(regs);
    FillKeepsCoherent(Hbn, HbnRank, s, c2);
    assert c2[Xclk] == Rc32m;
    XclkSetRateWrites(Snap(regs, c2));
    StaleRate(Snap(ApplyAll(regs, SetRateOps(XclkData, 1, 0)), c2));
  }

  /** The set-rate writes for XTAL keep the state coherent and program
      XCLK's selector to 1. */
  lemma XclkSetRateWrites(s: Snap)
    requires Coherent(Hbn, HbnRank, s)
    ensures var s2 := Snap(ApplyAll(s.regs, SetRateOps(XclkData, 1, 0)), s.cache);
      Coherent(Hbn, HbnRank, s2) && LiveSel(Hbn, s2, Xclk) == 1
  {
    var s2 := Snap(ApplyAll(s.regs, SetRateOps(XclkData, 1, 0)), s.cache);
    RegsSetCoherent(Hbn, HbnRank, s, s2.regs);
    XclkCounts();
    LiveSelAfterSetting(Hbn, s, s2, Xclk, 1, 0);
  }

  lemma StaleRate(s: Snap)
    requires Coherent(Hbn, HbnRank, s) && s.cache[Xclk] == Rc32m
    ensures EffParent(Hbn, s, Xclk) == Ok(Rc32m)
    ensures RateOf(Hbn, HbnRank, s, Xclk) == 32_000_000
  {
    RateOfStep(Hbn, HbnRank, s, Xclk);
    assert ParentRate(Hbn, HbnRank, s, Xclk) == 32_000_000;
  }

  /** As intended: recording the parent the new selector designates, as
      `SetRateState` does, leaves XCLK running at the 40 MHz asked for. */
  lemma SetRateRecordsParent(regs: map<nat, Word>, best: ULong, sel: nat, div: nat)
    requires HbnRegs(regs)
    requires BestIn(Cands(Hbn, HbnRank, XclkOnRc32m(regs), Xclk), 40_000_000, best, sel, div)
    ensures sel < Sels(Hbn.desc.clks[Xclk])
    ensures var s2 := SetRateState(Hbn, XclkOnRc32m(regs), Xclk, sel, div);
      && Coherent(Hbn, HbnRank, s2)
      && EffParent(Hbn, s2, Xclk) == Ok(Clk(Dev(HbnDev), Xtal))
      && RateOf(Hbn, HbnRank, s2, Xclk) == 40_000_000
  {
    XclkBest40(regs, best, sel, div);
    var s := XclkOnRc32m(regs);
    XclkCounts();
    SetRateRoundTrip(Hbn, HbnRank, s, Xclk, 40_000_000, best, sel, div);
    var s2 := SetRateState(Hbn, s, Xclk, sel, div);
    XclkParentHandles();
    assert s2.cache[Xclk] == Clk(Dev(HbnDev), Xtal) && s2.cache[Xtal] == EmptyClk;
    XtalRate(s);
    XtalRate(s2);
    assert SameParentRate(Hbn, HbnRank, s, s2, Xclk, sel);
  }

  // ---- `bflb_clk_set_parent` scales by an uninitialised `sel_lsb` ----

  const XtalClk: Clk := Clk(Dev(HbnDev), Xtal)

  /** `bflb_clk_set_parent(XCLK, XTAL)` finds XTAL at selector value 1. */
  lemma XtalIsSel1()
    ensures CountParents(XclkData) == 2 && FirstMatch(Hbn, XclkData, XtalClk, 0, 2) == Some(1)
  {
    XclkParents();
    XclkParentHandles();
  }

  /** As written, when `sel_lsb` happens to hold 0: the cache records XTAL
      as XCLK's parent, but the selector bit is cleared, so the hardware
      runs XCLK from RC32M. */
  lemma SetParentLsbZero(s: Snap)
    requires Coherent(Hbn, HbnRank, s)
    ensures var s2 := Snap(SelectWrite(s.regs, XclkData, 1, 0), s.cache[Xclk := XtalClk]);
      && Coherent(Hbn, HbnRank, s2)
      && EffParent(Hbn, s2, Xclk) == Ok(XtalClk)
      && LiveSel(Hbn, s2, Xclk) == 0
      && ResolveParent(Hbn, XclkData, LiveSel(Hbn, s2, Xclk)) == Ok(Rc32m)
  {
    XclkCounts();
    XclkParentHandles();
    SelectWriteCoherent(Hbn, HbnRank, s, Xclk, 1, 0, XtalClk);
    BitField(Zero, 0);
    WriteZeroAtBit0(s.regs[HbnGlb]);
  }

  /** Or-ing in 0 after clearing bit 0 leaves bit 0 clear. */
  lemma WriteZeroAtBit0(w: Word)
    ensures FieldRead(ClrSetBits(w, Bit(0), ToWord(Mul(1, 0))), Bit(0)) == 0
  {
    assert ToWord(Mul(1, 0))[0] == false;
    BitField(ClrSetBits(w, Bit(0), ToWord(Mul(1, 0))), 0);
  }

  /** As written, when `sel_lsb` happens to hold 2: the value written lands
      outside XCLK's selector, on HBN_ROOT's, which now selects PDS_PLL,
      while XCLK's selector reads 0. */
  lemma SetParentLsbTwo(s: Snap)
    requires Coherent(Hbn, HbnRank, s)
    ensures var s2 := Snap(SelectWrite(s.regs, XclkData, 1, 2), s.cache[Xclk := XtalClk]);
      && Coherent(Hbn, HbnRank, s2)
      && LiveSel(Hbn, s2, Xclk) == 0
      && LiveSel(Hbn, s2, HbnRoot) == 1
  {
    XclkCounts();
    XclkParentHandles();
    SelectWriteCoherent(Hbn, HbnRank, s, Xclk, 1, 2, XtalClk);
    BitField(Zero, 0);
    WriteTwoAtBit0(s.regs[HbnGlb]);
  }

  /** Or-ing in 2 after clearing bit 0 leaves bit 0 clear and sets bit 1. */
  lemma WriteTwoAtBit0(w: Word)
    ensures FieldRead(ClrSetBits(w, Bit(0), ToWord(Mul(1, 2))), Bit(0)) == 0
    ensures FieldRead(ClrSetBits(w, Bit(0), ToWord(Mul(1, 2))), Bit(1)) == 1
  {
    var v := ToWord(Mul(1, 2));
    assert v == [false] + FromNat(1, 31);
    assert FromNat(1, 31) == [true] + FromNat(0, 30);
    assert !v[0] && v[1];
    var w2 := ClrSetBits(w, Bit(0), v);
    BitField(w2, 0);
    BitField(w2, 1);
  }

  /** As intended, with `sel_lsb` the lowest bit of the selector mask:
      XCLK's selector designates XTAL, the parent the cache records, and
      HBN_ROOT's selector in the same register keeps its value. */
  lemma SetParentLowBit(s: Snap)
    requires Coherent(Hbn, HbnRank, s)
    ensures var s2 := Snap(SelectWrite(s.regs, XclkData, 1, Val(LowBit(Bit(0)))), s.cache[Xclk := XtalClk]);
      && Coherent(Hbn, HbnRank, s2)
      && LiveSel(Hbn, s2, Xclk) == 1
      && ResolveParent(Hbn, XclkData, LiveSel(Hbn, s2, Xclk)) == Ok(XtalClk)
      && LiveSel(Hbn, s2, HbnRoot) == LiveSel(Hbn, s, HbnRoot)
  {
    XclkCounts();
    XclkParentHandles();
    var lsb := Val(LowBit(Bit(0)));
    SelectWriteCoherent(Hbn, HbnRank, s, Xclk, 1, lsb, XtalClk);
    SelectWriteIntended(s.regs, XclkData, 1);
    var r := SelectWrite(s.regs, XclkData, 1, lsb);
    BitField(s.regs[HbnGlb], 1);
    BitField(r[HbnGlb], 1);
    assert !Bit(0)[1];
  }

  // ---- the GLB controller ----

  const GlbWifiPllCfg8: nat := 0x830
  const GlbWifiPllCfg10: nat := 0x838

  const WifiPll: nat := 0
  const WifiPllDiv5: nat := 1
  const UsbPll: nat := 2

  const WifiPllData: ClkData :=
    ClkData("WIFIPLL", None, 0, Zero, 0, Zero, 0, Zero, 0, Zero, 0, 480_000_000)
  const WifiPllDiv5Data: ClkData :=
    ClkData("WIFIPLL_DIV5", Some([WifiPll]), 0, Zero, 0, Zero, GlbWifiPllCfg8, Bit(8), 0, Zero, 5, 0)
  const UsbPllData: ClkData :=
    ClkData("USBPLL", Some([WifiPll]), 0, Zero, 0, Zero, GlbWifiPllCfg10, Bit(3), GlbWifiPllCfg10, Bit(7), 0, 0)

  const Glb: Env := Env(Desc([WifiPllData, WifiPllDiv5Data, UsbPllData], FwParents), GlbDev, Fw, NoParent, FwBase)
  const GlbRank: seq<nat> := [0, 1, 1]

  const WifiPllClk: Clk := Clk(Dev(GlbDev), WifiPll)

  predicate GlbRegs(regs: map<nat, Word>) {
    0 in regs && GlbWifiPllCfg8 in regs && GlbWifiPllCfg10 in regs
  }

  lemma GlbOk()
    ensures DescOk(Glb) && Ranked(Glb, GlbRank)
  {
    GlbData();
    FwOk(Glb);
    forall i, k | 0 <= i < 3 && Glb.desc.clks[i].parents.Some? && 0 <= k < |Glb.desc.clks[i].parents.value|
      && Glb.desc.clks[i].parents.value[k] != NoParent && Glb.desc.clks[i].parents.value[k] < FwBase
      ensures Glb.desc.clks[i].parents.value[k] < 3 && GlbRank[Glb.desc.clks[i].parents.value[k]] < GlbRank[i]
    {
      assert i == WifiPllDiv5 || i == UsbPll;
    }
  }

  lemma GlbData()
    ensures forall i :: 0 <= i < |Glb.desc.clks| ==> DataOk(Glb.desc.clks[i])
  {
    ZeroField();
    forall i | 0 <= i < |Glb.desc.clks|
      ensures DataOk(Glb.desc.clks[i])
    {
      assert i == WifiPll || i == WifiPllDiv5 || i == UsbPll;
    }
  }

  lemma GlbCoherent(s: Snap)
    requires GlbRegs(s.regs) && |s.cache| == 3
    requires !IsLocal(Glb, s.cache[WifiPll])
    requires !IsLocal(Glb, s.cache[WifiPllDiv5]) || s.cache[WifiPllDiv5] == WifiPllClk
    requires !IsLocal(Glb, s.cache[UsbPll]) || s.cache[UsbPll] == WifiPllClk
    ensures Coherent(Glb, GlbRank, s)
  {
    GlbOk();
    forall i | 0 <= i < 3
      ensures Glb.desc.clks[i].selReg in s.regs && Glb.desc.clks[i].divReg in s.regs
      ensures Glb.desc.clks[i].enReg in s.regs && Glb.desc.clks[i].rstReg in s.regs
    {
      assert i == WifiPll || i == WifiPllDiv5 || i == UsbPll;
    }
    assert RegsOk(Glb, s.regs);
    forall i | 0 <= i < 3 && IsLocal(Glb, s.cache[i])
      ensures s.cache[i].id < 3 && GlbRank[s.cache[i].id] < GlbRank[i]
    {
      assert i == WifiPllDiv5 || i == UsbPll;
    }
  }

  /** A child of WIFIPLL reports WIFIPLL as its parent. */
  lemma WifiPllChild(s: Snap, i: nat)
    requires Coherent(Glb, GlbRank, s) && (i == WifiPllDiv5 || i == UsbPll)
    requires !ClkValid(s.cache[i]) || s.cache[i] == WifiPllClk
    ensures EffParent(Glb, s, i) == Ok(WifiPllClk)
  {
    ZeroField();
    assert LiveSel(Glb, s, i) == 0;
  }

  /** WIFIPLL_DIV5 runs at a fifth of WIFIPLL's fixed 480 MHz. */
  lemma WifiPllDiv5Rate(s: Snap)
    requires Coherent(Glb, GlbRank, s)
    requires !ClkValid(s.cache[WifiPllDiv5]) || s.cache[WifiPllDiv5] == WifiPllClk
    ensures RateOf(Glb, GlbRank, s, WifiPll) == 480_000_000
    ensures RateOf(Glb, GlbRank, s, WifiPllDiv5) == 96_000_000
  {
    WifiPllChild(s, WifiPllDiv5);
    RateOfStep(Glb, GlbRank, s, WifiPllDiv5);
    assert ParentRate(Glb, GlbRank, s, WifiPllDiv5) == 480_000_000;
    assert FixedRate(WifiPllDiv5Data, 480_000_000) == 96_000_000;
  }

  /** `bflb_clk_round_rate` of WIFIPLL is 0 for every request, although
      `bflb_clk_get_rate` reports 480 MHz: the search never looks at the
      descriptor's fixed rate, and WIFIPLL has no parent list. */
  lemma WifiPllRoundsToZero(s: Snap, req: ULong, r: ULong, bs: nat, bd: nat)
    requires Coherent(Glb, GlbRank, s)
    requires BestIn(Cands(Glb, GlbRank, s, WifiPll), req, r, bs, bd)
    ensures r == 0 && RateOf(Glb, GlbRank, s, WifiPll) == 480_000_000
  {
    NoParentsRoundToZero(Glb, GlbRank, s, WifiPll, req, r, bs, bd);
  }

  /** `bflb_clk_enable(USBPLL)` first enables WIFIPLL, whose gate is empty,
      then gates USBPLL on and pulses its reset. */
  lemma UsbPllEnable(s: Snap)
    requires Coherent(Glb, GlbRank, s) && !ClkValid(s.cache[WifiPll])
    requires !ClkValid(s.cache[UsbPll]) || s.cache[UsbPll] == WifiPllClk
    ensures EnableSpec(Glb, GlbRank, s, UsbPll) ==
      Outcome(0, [GateOp(WifiPllData, true), GateOp(UsbPllData, true)] + ResetOps(UsbPllData))
  {
    WifiPllChild(s, UsbPll);
    assert ParentEnable(Glb, GlbRank, s, UsbPll) == EnableSpec(Glb, GlbRank, s, WifiPll);
    WifiPllEnable(s);
    UsbPllResets();
  }

  /** WIFIPLL has no parent list, so its parent lookup fails; enabling
      USBPLL enables WIFIPLL first and therefore, as written, reaches the
      unchecked error pointer of `bflb_clk_enable`. */
  lemma UsbPllHitsErrPtr(s: Snap)
    requires Coherent(Glb, GlbRank, s) && !ClkValid(s.cache[WifiPll])
    requires !ClkValid(s.cache[UsbPll]) || s.cache[UsbPll] == WifiPllClk
    ensures EffParent(Glb, s, WifiPll) == Err(-ENOENT)
    ensures EffParent(Glb, s, UsbPll) == Ok(WifiPllClk)
    ensures EnableHitsErrPtr(Glb, GlbRank, s, WifiPll)
    ensures EnableHitsErrPtr(Glb, GlbRank, s, UsbPll)
  {
    WifiPllChild(s, UsbPll);
    assert EffParent(Glb, s, WifiPll) == Err(-ENOENT);
  }

  lemma WifiPllEnable(s: Snap)
    requires Coherent(Glb, GlbRank, s) && !ClkValid(s.cache[WifiPll])
    ensures EnableSpec(Glb, GlbRank, s, WifiPll) == Outcome(0, [GateOp(WifiPllData, true)])
  {
    assert EffParent(Glb, s, WifiPll) == Err(-ENOENT);
    assert ParentEnable(Glb, GlbRank, s, WifiPll) == Outcome(0, []);
  }

  lemma UsbPllResets()
    ensures OwnEnableOps(UsbPllData) == [GateOp(UsbPllData, true)] + ResetOps(UsbPllData)
  {
    BitField(Zero, 7);
    assert HasReset(UsbPllData);
  }
}
