// The clock operations of one Bouffalo clock controller. The controller's
// mutable state is its register file and the table of current parents that
// `bflb_clk_probe` allocates zeroed; every operation is a method that reads
// and writes that state the way the driver does, and is proved against the
// definitions of the specification module.

module ClkBflb {
  import opened Bits
  import opened ClkTypes
  import opened ClkSpec

  class ClockDomain {
    /** The descriptor, device and framework of the controller. */
    const env: Env
    /** A ranking of the clocks witnessing that local parent links have no cycle. */
    ghost const rank: seq<nat>
    /** The controller's registers, by offset from its base. */
    var regs: map<nat, Word>
    /** The current parent of every clock, zeroed until resolved. */
    const cache: array<Clk>

    ghost function State(): Snap
      reads this, cache
    {
      Snap(regs, cache[..])
    }

    /** The controller invariant, and every cached parent is one of its
        clock's parents. */
    ghost predicate Valid()
      reads this, cache
    {
      Coherent(env, rank, State()) && CacheSound(env, cache[..])
    }

    /** `bflb_clk_probe`: one zeroed handle per clock as the parent cache. */
    constructor (env: Env, ghost rank: seq<nat>, regs: map<nat, Word>)
      requires DescOk(env) && Ranked(env, rank) && RegsOk(env, regs)
      ensures Valid()
      ensures this.env == env && this.rank == rank && this.regs == regs
      ensures fresh(cache) && cache[..] == seq(|env.desc.clks|, _ => EmptyClk)
    {
      this.env := env;
      this.rank := rank;
      this.regs := regs;
      cache := new Clk[|env.desc.clks|](_ => EmptyClk);
    }

    /** `bflb_clk_get_parent`: the cached parent, or else the parent the
        selector register designates, which is then cached. */
    method GetParent(i: nat) returns (r: Result<Clk>)
      requires Valid() && i < |env.desc.clks|
      modifies cache
      ensures Valid()
      ensures r == EffParent(env, old(State()), i)
      ensures cache[..] == if r.Ok? then old(cache[..])[i := r.value] else old(cache[..])
      ensures CacheFills(env, old(State()), cache[..])
    {
      var d := env.desc.clks[i];
      ghost var s0 := State();
      if ClkValid(cache[i]) {
        r := Ok(cache[i]);
        FillNothing(env, s0);
      } else {
        // FieldRead gives 0 for a clock without a selector field, the value
        // the source starts from when it skips the register read
        var sel := FieldRead(regs[d.selReg], d.selMask);
        r := ResolveParent(env, d, sel);
        if r.Ok? {
          ResolveRanked(env, rank, i, sel);
          CacheSetSound(env, cache[..], i, sel, r.value);
          cache[i] := r.value;
          assert cache[..] == s0.cache[i := r.value];
          CacheSetCoherent(env, rank, s0, i, r.value);
          FillOne(env, s0, i);
        } else {
          FillNothing(env, s0);
        }
      }
    }

    /** `bflb_clk_get_rate`: the descriptor's fixed rate when it has one;
        otherwise the parent's rate, passed on when it is an error value and
        divided by the fixed and the programmable divider (`NodeRate`)
        otherwise. */
    method GetRate(i: nat) returns (r: ULong)
      requires Valid() && i < |env.desc.clks|
      modifies cache
      ensures Valid()
      ensures r == RateOf(env, rank, old(State()), i)
      ensures CacheFills(env, old(State()), cache[..])
      ensures SameFrom(rank, old(cache[..]), cache[..], rank[i] + 1)
      ensures env.desc.clks[i].rate != 0 ==> cache[..] == old(cache[..])
      decreases rank[i], 1
    {
      var d := env.desc.clks[i];
      if d.rate != 0 {
        r := d.rate;
        FillNothing(env, State());
      } else {
        ghost var s0 := State();
        r := GetParentRate(i);
        RateOfStep(env, rank, s0, i);
        if !IsErrValue(r) {
          r := NodeRate(d, regs, r);
        }
      }
    }

    /** The framework's `clk_get_parent_rate`: the rate of the parent the
        engine reports, `-ENODEV` when there is none. */
    method GetParentRate(i: nat) returns (r: ULong)
      requires Valid() && i < |env.desc.clks|
      modifies cache
      ensures Valid()
      ensures r == ParentRate(env, rank, old(State()), i)
      ensures CacheFills(env, old(State()), cache[..])
      ensures SameFrom(rank, old(cache[..]), cache[..], rank[i] + 1)
      decreases rank[i], 0
    {
      ghost var s0 := State();
      EffParentRanked(env, rank, s0, i);
      var parent := GetParent(i);
      if parent.Err? {
        r := NegErr(ENODEV);
      } else if parent.value.dev == Dev(env.dev) {
        ghost var c1 := cache[..];
        FillKeepsRate(env, rank, s0, c1, parent.value.id);
        r := GetRate(parent.value.id);
        FillTrans(env, s0, c1, cache[..]);
      } else {
        r := env.prov.rate(parent.value);
      }
    }

    /** The parent rate `bflb_clk_calc_rate` works with for selector `sel`,
        after the fixed divider; `usable` is false when the parent cannot be
        resolved or its rate is an error value. */
    method SelectorRate(i: nat, sel: nat) returns (usable: bool, pr: ULong)
      requires Valid() && i < |env.desc.clks| && sel < Sels(env.desc.clks[i])
      modifies cache
      ensures Valid()
      ensures usable <==> SelRate(env, rank, old(State()), i, sel).Some?
      ensures usable ==> pr == SelRate(env, rank, old(State()), i, sel).value
      ensures CacheFills(env, old(State()), cache[..])
      ensures SameFrom(rank, old(cache[..]), cache[..], rank[i])
    {
      var d := env.desc.clks[i];
      ResolveRanked(env, rank, i, sel);
      var res := ResolveParent(env, d, sel);
      usable, pr := false, 0;
      if res.Ok? {
        if res.value.dev == Dev(env.dev) {
          pr := GetRate(res.value.id);
        } else {
          FillNothing(env, State());
          pr := env.prov.rate(res.value);
        }
        if !IsErrValue(pr) {
          usable := true;
          pr := FixedRate(d, pr);
        }
      } else {
        FillNothing(env, State());
      }
    }

    /** `bflb_clk_calc_rate`: over every selector and divider value, the
        highest rate not above `req`, with the first setting that gives it.
        The outputs start as `sel0` and `div0`, the caller's variables, and
        keep those values when no positive rate fits. */
    method CalcRate(i: nat, req: ULong, sel0: nat, div0: nat) returns (best: ULong, bestSel: nat, bestDiv: nat)
      requires Valid() && i < |env.desc.clks|
      modifies cache
      ensures Valid()
      ensures CacheFills(env, old(State()), cache[..])
      ensures SameFrom(rank, old(cache[..]), cache[..], rank[i]) && cache[i] == old(cache[i])
      ensures BestIn(Cands(env, rank, old(State()), i), req, best, bestSel, bestDiv)
      ensures best == 0 ==> bestSel == sel0 && bestDiv == div0
    {
      var d := env.desc.clks[i];
      ghost var s0 := State();
      ghost var t := Cands(env, rank, s0, i);
      var numSels := CountParents(d);
      var numDivs := 1;
      if d.divMask != Zero {
        numDivs := FieldCount(d.divMask);
      }
      assert numSels == Sels(d) && numDivs == Divs(d);
      best, bestSel, bestDiv := 0, sel0, div0;
      BestStart(t, req, bestSel, bestDiv);
      FillNothing(env, s0);
      var sel: nat := 0;
      while sel < numSels
        invariant sel <= numSels
        invariant Valid() && CacheFills(env, s0, cache[..])
        invariant SameFrom(rank, s0.cache, cache[..], rank[i])
        invariant BestUpTo(t, req, best, bestSel, bestDiv, sel, 0)
        invariant best == 0 ==> bestSel == sel0 && bestDiv == div0
      {
        best, bestSel, bestDiv := ScanSelector(i, req, sel, numDivs, s0, best, bestSel, bestDiv);
        sel := sel + 1;
      }
    }

    /** One pass of the selector loop of `bflb_clk_calc_rate`: resolve
        parent number `sel` and, when it is usable, scan its dividers. */
    method ScanSelector(i: nat, req: ULong, sel: nat, numDivs: nat, ghost s0: Snap,
                        best0: ULong, bs0: nat, bd0: nat) returns (best: ULong, bs: nat, bd: nat)
      requires Valid() && i < |env.desc.clks| && sel < Sels(env.desc.clks[i])
      requires numDivs == Divs(env.desc.clks[i])
      requires s0.regs == regs && Coherent(env, rank, s0) && CacheFills(env, s0, cache[..])
      requires SameFrom(rank, s0.cache, cache[..], rank[i])
      requires BestUpTo(Cands(env, rank, s0, i), req, best0, bs0, bd0, sel, 0)
      modifies cache
      ensures Valid() && CacheFills(env, s0, cache[..])
      ensures SameFrom(rank, s0.cache, cache[..], rank[i])
      ensures BestUpTo(Cands(env, rank, s0, i), req, best, bs, bd, sel + 1, 0)
      ensures best == best0 ==> bs == bs0 && bd == bd0
    {
      ghost var t := Cands(env, rank, s0, i);
      ghost var c1 := cache[..];
      FillKeepsSelRate(env, rank, s0, c1, i, sel);
      var usable, parentRate := SelectorRate(i, sel);
      FillTrans(env, s0, c1, cache[..]);
      CandsRow(env, rank, s0, i, sel);
      if usable {
        best, bs, bd := ScanDivs(t, req, sel, parentRate, numDivs, best0, bs0, bd0);
      } else {
        best, bs, bd := best0, bs0, bd0;
        BestRowSkip(t, req, best, bs, bd, sel);
      }
    }

    /** `bflb_clk_round_rate`: the rate `bflb_clk_calc_rate` finds. The
        setting it reports is returned as ghost outputs. */
    method RoundRate(i: nat, req: ULong) returns (r: ULong, ghost sel: nat, ghost div: nat)
      requires Valid() && i < |env.desc.clks|
      modifies cache
      ensures Valid()
      ensures CacheFills(env, old(State()), cache[..])
      ensures SameFrom(rank, old(cache[..]), cache[..], rank[i]) && cache[i] == old(cache[i])
      ensures BestIn(Cands(env, rank, old(State()), i), req, r, sel, div)
    {
      r, sel, div := CalcRate(i, req, 0, 0);
    }

    /** `bflb_clk_set_rate`: program the selector and the divider of the
        best setting, when one exists. The source returns 0 in every case;
        the chosen rate and setting are returned as ghost outputs. */
    method SetRate(i: nat, req: ULong) returns (r: int, ghost best: ULong, ghost sel: nat, ghost div: nat)
      requires Valid() && i < |env.desc.clks|
      modifies this, cache
      ensures Valid() && r == 0
      ensures CacheFills(env, old(State()), cache[..])
      ensures SameFrom(rank, old(cache[..]), cache[..], rank[i]) && cache[i] == old(cache[i])
      ensures BestIn(Cands(env, rank, old(State()), i), req, best, sel, div)
      ensures best == 0 ==> regs == old(regs)
      ensures best > 0 ==> regs == ApplyAll(old(regs), SetRateOps(env.desc.clks[i], sel, div))
      ensures best > 0 ==> sel < Sels(env.desc.clks[i])
      ensures var d := env.desc.clks[i];
        (&& best > 0 && d.rate == 0
         && (d.selReg == d.divReg ==> Disjoint(d.selMask, d.divMask))
         && (!ClkValid(old(cache[i])) || d.selMask == Zero)
         && SameParentRate(env, rank, old(State()), State(), i, sel))
        ==> RateOf(env, rank, State(), i) == best
    {
      var d := env.desc.clks[i];
      ghost var s0 := State();
      var rate, s, dv := CalcRate(i, req, 0, 0);
      ghost var c2 := cache[..];
      best, sel, div := rate, s, dv;
      r := 0;
      if rate != 0 {
        SetRateOpsSteps(regs, d, s, dv);
        if d.selMask != Zero {
          ClrSetBits32(d.selReg, d.selMask, FieldBits(d.selMask, s));
        }
        if d.divMask != Zero {
          ClrSetBits32(d.divReg, d.divMask, FieldBits(d.divMask, dv));
        }
        assert State() == Snap(ApplyAll(s0.regs, SetRateOps(d, s, dv)), c2);
        if d.rate == 0 && (d.selReg == d.divReg ==> Disjoint(d.selMask, d.divMask))
           && (!ClkValid(s0.cache[i]) || d.selMask == Zero) {
          SetRateFreshRoundTrip(env, rank, s0, c2, i, req, rate, s, dv);
        }
      }
    }

    /** `bflb_clk_set_parent`: find the first selector value whose parent is
        `target`, program it and cache `target`; `-ENOENT` when no selector
        value gives `target`. The source multiplies the selector value by a
        variable it never initialises; `lsb` stands for whatever that
        variable holds. */
    method SetParent(i: nat, target: Clk, lsb: nat) returns (r: int)
      requires Valid() && i < |env.desc.clks|
      modifies this, cache
      ensures Valid()
      ensures var m := FirstMatch(env, env.desc.clks[i], target, 0, Sels(env.desc.clks[i]));
        && (m.None? ==> r == -ENOENT && regs == old(regs) && cache[..] == old(cache[..]))
        && (m.Some? ==> r == 0 && regs == SelectWrite(old(regs), env.desc.clks[i], m.value, lsb)
                        && cache[..] == old(cache[..])[i := target])
    {
      var d := env.desc.clks[i];
      var numSels := CountParents(d);
      var sel, p := FindParent(env, d, target, numSels);
      if sel == numSels {
        r := -ENOENT;
      } else {
        ghost var s0 := State();
        SelectWriteCoherent(env, rank, s0, i, sel, lsb, p);
        CacheSetSound(env, s0.cache, i, sel, p);
        if d.selMask != Zero {
          ClrSetBits32(d.selReg, d.selMask, ToWord(Mul(sel, lsb)));
        }
        cache[i] := p;
        assert cache[..] == s0.cache[i := p];
        r := 0;
      }
    }

    /** `bflb_clk_set_parent` with `sel_lsb` set to the lowest bit of the
        selector mask (`mask & -mask`), the multiplier `bflb_clk_set_rate`
        uses: the selector then designates the parent that is cached,
        and the rest of the selector register is kept. */
    method SetParentIntended(i: nat, target: Clk) returns (r: int)
      requires Valid() && i < |env.desc.clks|
      modifies this, cache
      ensures Valid()
      ensures var d := env.desc.clks[i];
        var m := FirstMatch(env, d, target, 0, Sels(d));
        && (m.None? ==> r == -ENOENT && regs == old(regs) && cache[..] == old(cache[..]))
        && (m.Some? ==>
              && r == 0 && cache[..] == old(cache[..])[i := target]
              && LiveSel(env, State(), i) == m.value
              && ResolveParent(env, d, LiveSel(env, State(), i)) == Ok(target)
              && d.selReg in old(regs) && d.selReg in regs
              && SameOutside(old(regs)[d.selReg], regs[d.selReg], d.selMask)
              && regs == old(regs)[d.selReg := regs[d.selReg]])
    {
      ghost var r0 := regs;
      var d := env.desc.clks[i];
      r := SetParent(i, target, Val(LowBit(d.selMask)));
      ghost var m := FirstMatch(env, d, target, 0, Sels(d));
      if m.Some? {
        SelectWriteIntended(r0, d, m.value);
        assert regs == r0[d.selReg := regs[d.selReg]];
      }
    }

    /** `clrsetbits_le32` on the register at offset `off`: clear the bits
        `clear`, then set the bits `bits`. `setbits_le32` and `clrbits_le32`
        are this write with nothing to clear or nothing to set
        (`Bits.SetBitsAsClrSet`, `Bits.ClrBitsAsClrSet`). */
    method ClrSetBits32(off: nat, clear: Word, bits: Word)
      requires Valid() && off in regs
      modifies this
      ensures Valid() && cache[..] == old(cache[..])
      ensures regs == Apply(old(regs), RegOp(off, clear, bits))
    {
      ghost var s0 := State();
      regs := regs[off := ClrSetBits(regs[off], clear, bits)];
      RegsSetCoherent(env, rank, s0, regs);
    }

    /** `bflb_clk_set_gate`: write the gate bits, all set to enable. */
    method SetGate(i: nat, on: bool) returns (r: int)
      requires Valid() && i < |env.desc.clks|
      modifies this
      ensures Valid() && r == 0
      ensures regs == Apply(old(regs), GateOp(env.desc.clks[i], on))
    {
      var d := env.desc.clks[i];
      ClrSetBits32(d.enReg, d.enMask, if on then d.enMask else Zero);
      r := 0;
    }

    /** `bflb_pll_toggle_reset`: set, clear, then set the reset bits (the
        source waits 2 us between the writes). */
    method PllToggleReset(i: nat) returns (r: int)
      requires Valid() && i < |env.desc.clks|
      modifies this
      ensures Valid() && r == 0
      ensures regs == ApplyAll(old(regs), ResetOps(env.desc.clks[i]))
    {
      var d := env.desc.clks[i];
      ghost var ops := ResetOps(d);
      ApplyAllThree(regs, ops[0], ops[1], ops[2]);
      ClrSetBits32(d.rstReg, Zero, d.rstMask);
      ClrSetBits32(d.rstReg, d.rstMask, Zero);
      ClrSetBits32(d.rstReg, Zero, d.rstMask);
      r := 0;
    }

    /** `bflb_clk_enable`: enable the reported parent first, stopping with
        its error code if that fails; then gate the clock on and pulse its
        reset when the descriptor names one. A missing parent is skipped. */
    method Enable(i: nat) returns (r: int)
      requires Valid() && i < |env.desc.clks|
      modifies this, cache
      ensures Valid()
      ensures r == EnableSpec(env, rank, old(State()), i).code
      ensures regs == ApplyAll(old(regs), EnableSpec(env, rank, old(State()), i).ops)
      ensures CacheFills(env, old(State()), cache[..])
      decreases rank[i], 1
    {
      var d := env.desc.clks[i];
      ghost var s0 := State();
      r := EnableParent(i);
      ghost var up := ParentEnable(env, rank, s0, i);
      if r == 0 {
        OwnEnableSteps(regs, d);
        ApplyAllConcat(s0.regs, up.ops, OwnEnableOps(d));
        // set_gate always returns 0, so the source's check of its result never fires
        var _ := SetGate(i, true);
        if HasReset(d) {
          var _ := PllToggleReset(i);
        }
      }
    }

    /** The first step of `bflb_clk_enable`: enable the reported parent,
        through the engine for a clock of this controller and through the
        framework otherwise; nothing happens without a parent. */
    method EnableParent(i: nat) returns (r: int)
      requires Valid() && i < |env.desc.clks|
      modifies this, cache
      ensures Valid()
      ensures r == ParentEnable(env, rank, old(State()), i).code
      ensures regs == ApplyAll(old(regs), ParentEnable(env, rank, old(State()), i).ops)
      ensures CacheFills(env, old(State()), cache[..])
      decreases rank[i], 0
    {
      ghost var s0 := State();
      EffParentRanked(env, rank, s0, i);
      var parent := GetParent(i);
      r := 0;
      if parent.Ok? {
        if parent.value.dev == Dev(env.dev) {
          ghost var c1 := cache[..];
          FillKeepsEnable(env, rank, s0, c1, parent.value.id);
          r := Enable(parent.value.id);
          FillTrans(env, s0, c1, cache[..]);
        } else {
          r := env.prov.enable(parent.value);
        }
      }
    }

    /** `bflb_clk_disable`: gate the clock off. */
    method Disable(i: nat) returns (r: int)
      requires Valid() && i < |env.desc.clks|
      modifies this
      ensures Valid() && r == 0
      ensures regs == Apply(old(regs), GateOp(env.desc.clks[i], false))
    {
      r := SetGate(i, false);
    }
  }

  /** The search loop of `bflb_clk_set_parent`: the first selector value
      below `numSels` whose parent resolves to `target`, with that parent,
      or `numSels` when there is none. */
  method FindParent(env: Env, d: ClkData, target: Clk, numSels: nat) returns (sel: nat, p: Clk)
    requires d.parents.Some? ==> numSels <= |d.parents.value|
    ensures sel <= numSels
    ensures sel == numSels <==> FirstMatch(env, d, target, 0, numSels).None?
    ensures sel < numSels ==> FirstMatch(env, d, target, 0, numSels) == Some(sel) && p == target
  {
    sel, p := 0, EmptyClk;
    while sel < numSels
      invariant sel <= numSels
      invariant forall k :: 0 <= k < sel ==> ResolveParent(env, d, k) != Ok(target)
    {
      var res := ResolveParent(env, d, sel);
      if res.Ok? && res.value.dev == target.dev && res.value.id == target.id {
        p := res.value;
        return;
      }
      sel := sel + 1;
    }
  }

  /** The divider loop of `bflb_clk_calc_rate` for selector `sel`, whose
      parent offers `pr`: it takes each rate `pr / (1 + div)` that fits
      `req` and beats the best so far, so the best after the row is the best
      over every setting up to the end of the row. */
  method ScanDivs(ghost t: seq<seq<Option<ULong>>>, req: ULong, sel: nat, pr: ULong, numDivs: nat,
                  best0: ULong, bs0: nat, bd0: nat) returns (best: ULong, bs: nat, bd: nat)
    requires sel < |t| && |t[sel]| == numDivs
    requires forall b :: 0 <= b < numDivs ==> t[sel][b] == Some(UDiv(pr, 1 + b))
    requires BestUpTo(t, req, best0, bs0, bd0, sel, 0)
    ensures BestUpTo(t, req, best, bs, bd, sel + 1, 0)
    ensures best == best0 ==> bs == bs0 && bd == bd0
  {
    best, bs, bd := best0, bs0, bd0;
    var div: nat := 0;
    while div < numDivs
      invariant div <= numDivs
      invariant BestUpTo(t, req, best, bs, bd, sel, div)
      invariant best >= best0 && (best == best0 ==> bs == bs0 && bd == bd0)
    {
      var rate := UDiv(pr, 1 + div);
      if rate > req || rate <= best {
        BestKeep(t, req, best, bs, bd, sel, div);
      } else {
        BestTake(t, req, best, bs, bd, sel, div);
        best, bs, bd := rate, sel, div;
      }
      div := div + 1;
    }
    BestRowDone(t, req, best, bs, bd, sel);
  }
}
