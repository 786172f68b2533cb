/** The storages of locals and operands hold a fixed number of slots, 1024 unless told otherwise, and a
    push beyond that ends the run with an error. A machine with such storages does what the unbounded one
    does, up to the first state that does not fit. */
module Storage {
  import opened Bytes
  import opened Language
  import opened Machine
  import opened Semantics
  import opened Relation
  import opened Correctness

  // Functions, natives and addresses take one slot.
  function ItemSize(i: Item): nat { if i.V? then SlotSize(i.v.ty) else 1 }

  function Held(operands: seq<Item>): nat {
    if operands == [] then 0 else Held(operands[..|operands| - 1]) + ItemSize(operands[|operands| - 1])
  }

  predicate Fits(capacity: nat, s: MState) { Extent(s.locals) <= capacity && Held(s.operands) <= capacity }

  // A run with bounded storages; none when the program is over, the machine is stuck, or a push fails.
  function RunIn(img: Image, capacity: nat, n: nat, s: MState): Option<MState> {
    if n == 0 then Some(s)
    else
      match Step(img, s)
      case None => None
      case Some(s1) => if Fits(capacity, s1) then RunIn(img, capacity, n - 1, s1) else None
  }

  predicate HaltsIn(img: Image, capacity: nat, n: nat, s: MState) {
    var r := RunIn(img, capacity, n, s); r.Some? && Halted(img, r.value)
  }

  predicate StuckIn(img: Image, capacity: nat, n: nat, s: MState) {
    var r := RunIn(img, capacity, n, s); r.Some? && !Halted(img, r.value) && Step(img, r.value).None?
  }

  // The next command pushes beyond the end of a storage: OverflowError.
  predicate OverflowsIn(img: Image, capacity: nat, n: nat, s: MState) {
    var r := RunIn(img, capacity, n, s);
    r.Some? && Step(img, r.value).Some? && !Fits(capacity, Step(img, r.value).value)
  }

  // The k-th state of the unbounded run, if there is one, fits.
  predicate FitsAt(img: Image, capacity: nat, k: nat, s: MState) {
    var r := Run(img, k, s); r.Some? ==> Fits(capacity, r.value)
  }

  lemma {:induction false} RunInIs(img: Image, capacity: nat, n: nat, s: MState)
    requires Fits(capacity, s)
    ensures RunIn(img, capacity, n, s).Some? <==>
      Run(img, n, s).Some? && forall k :: 0 <= k <= n ==> FitsAt(img, capacity, k, s)
    ensures RunIn(img, capacity, n, s).Some? ==> RunIn(img, capacity, n, s) == Run(img, n, s)
    decreases n
  {
    hide Step, Fits;
    assert Run(img, 0, s) == Some(s);
    if n > 0 && Step(img, s).Some? {
      var s1 := Step(img, s).value;
      assert forall k: nat :: Run(img, k + 1, s) == Run(img, k, s1);
      if Fits(capacity, s1) {
        RunInIs(img, capacity, n - 1, s1);
        if Run(img, n - 1, s1).Some? && forall k :: 0 <= k <= n - 1 ==> FitsAt(img, capacity, k, s1) {
          forall k | 0 <= k <= n
            ensures FitsAt(img, capacity, k, s)
          {
            assert k > 0 ==> FitsAt(img, capacity, k - 1, s1);
          }
        }
        if forall k :: 0 <= k <= n ==> FitsAt(img, capacity, k, s) {
          forall k | 0 <= k <= n - 1
            ensures FitsAt(img, capacity, k, s1)
          {
            assert FitsAt(img, capacity, k + 1, s);
          }
        }
      } else {
        assert Run(img, 1, s) == Run(img, 0, s1) == Some(s1);
        assert !FitsAt(img, capacity, 1, s);
      }
    }
  }

  // The whole unbounded run fits.
  ghost predicate AllFit(img: Image, capacity: nat, s: MState) { forall k :: FitsAt(img, capacity, k, s) }

  lemma BeginFits(capacity: nat, w: World)
    ensures Fits(capacity, Initial(w))
  {
  }

  // In numbers: ints fit as long as there are no more of them than slots, and longs half as many.
  lemma {:induction false} HeldIs(operands: seq<Item>, t: Ty)
    requires forall i :: 0 <= i < |operands| ==> operands[i].V? && operands[i].v.ty == t
    ensures Held(operands) == (if t == Long || t == Double then 2 else 1) * |operands|
    decreases |operands|
  {
    if operands != [] {
      HeldIs(operands[..|operands| - 1], t);
    }
  }

  // A function, a native or an address takes one slot beside them.
  lemma HeldMore(operands: seq<Item>, i: Item)
    ensures Held(operands + [i]) == Held(operands) + if i.V? && (i.v.ty == Long || i.v.ty == Double) then 2 else 1
  {
    assert (operands + [i])[..|operands|] == operands;
  }

  lemma FitsExactly(capacity: nat, s: MState)
    requires s.locals == []
    ensures (forall i :: 0 <= i < |s.operands| ==> s.operands[i].V? && s.operands[i].v.ty == Int) ==>
      (Fits(capacity, s) <==> |s.operands| <= capacity)
    ensures (forall i :: 0 <= i < |s.operands| ==> s.operands[i].V? && s.operands[i].v.ty == Long) ==>
      (Fits(capacity, s) <==> 2 * |s.operands| <= capacity)
  {
    if forall i :: 0 <= i < |s.operands| ==> s.operands[i].V? && s.operands[i].v.ty == Int {
      HeldIs(s.operands, Int);
    }
    if forall i :: 0 <= i < |s.operands| ==> s.operands[i].V? && s.operands[i].v.ty == Long {
      HeldIs(s.operands, Long);
    }
  }

  // A stop after n steps is reached with bounded storages exactly when everything up to it fits.
  lemma StopsInside(img: Image, capacity: nat, n: nat, s: MState)
    requires Fits(capacity, s) && Run(img, n, s).Some? && Step(img, Run(img, n, s).value).None?
    ensures RunIn(img, capacity, n, s).Some? <==> AllFit(img, capacity, s)
  {
    hide Run, RunIn, Step, Fits;
    RunInIs(img, capacity, n, s);
    forall k: nat
      ensures k > n ==> FitsAt(img, capacity, k, s)
    {
      StopsOnce(img, n, k, s);
    }
  }

  // With storages of any capacity: the machine halts if and only if the program ends and every state of
  // the run fits, and then what it holds is what the program left; it is stuck if and only if the program
  // is broken off and every state fits; it overflows if and only if some state does not fit.
  lemma BoundedRuns(K: Setup, us: seq<Unit>, capacity: nat, w: World)
    requires Loaded(K, us)
    ensures (exists n :: HaltsIn(K.img, capacity, n, Initial(w))) <==>
      (exists fuel :: Ends(K, us, w, fuel)) && AllFit(K.img, capacity, Initial(w))
    ensures (exists n :: StuckIn(K.img, capacity, n, Initial(w))) <==>
      (exists fuel :: BreaksOff(K, us, w, fuel)) && AllFit(K.img, capacity, Initial(w))
    ensures (exists n :: OverflowsIn(K.img, capacity, n, Initial(w))) <==> !AllFit(K.img, capacity, Initial(w))
    ensures forall n, fuel :: HaltsIn(K.img, capacity, n, Initial(w)) && Ends(K, us, w, fuel) ==>
      Finished(K, ExecUnits(K.P, fuel, Begin(w), us).st, RunIn(K.img, capacity, n, Initial(w)).value)
  {
    hide Loaded, Run, RunIn, Step, Fits, Halted, Stuck, ExecUnits, Finished, AllFit, StuckIn, OverflowsIn, BreaksOff,
      Initial, Begin;
    var m := Initial(w);
    BeginFits(capacity, w);
    HaltsIffEnds(K, us, w);
    StuckIffBroken(K, us, w);
    HaltsInside(K.img, capacity, m);
    StuckInside(K.img, capacity, m);
    OverflowsOutside(K.img, capacity, m);
    forall n: nat, fuel: nat | HaltsIn(K.img, capacity, n, m) && Ends(K, us, w, fuel)
      ensures Finished(K, ExecUnits(K.P, fuel, Begin(w), us).st, RunIn(K.img, capacity, n, m).value)
    {
      HaltsSame(K.img, capacity, n, m);
    }
  }

  lemma HaltsSame(img: Image, capacity: nat, n: nat, s: MState)
    requires Fits(capacity, s) && HaltsIn(img, capacity, n, s)
    ensures HaltsAfter(img, n, s) && RunIn(img, capacity, n, s) == Run(img, n, s)
  {
    hide Run, RunIn, Step, Fits, Halted, FitsAt;
    RunInIs(img, capacity, n, s);
  }

  lemma HaltsInside(img: Image, capacity: nat, s: MState)
    requires Fits(capacity, s)
    ensures (exists n :: HaltsIn(img, capacity, n, s)) <==>
      (exists n :: HaltsAfter(img, n, s)) && AllFit(img, capacity, s)
  {
    hide Run, RunIn, Step, Fits, Halted, AllFit, FitsAt;
    forall n: nat
      ensures HaltsIn(img, capacity, n, s) <==> HaltsAfter(img, n, s) && AllFit(img, capacity, s)
    {
      RunInIs(img, capacity, n, s);
      if HaltsAfter(img, n, s) {
        HaltedStops(img, n, s);
        StopsInside(img, capacity, n, s);
      } else if HaltsIn(img, capacity, n, s) {
        HaltsSame(img, capacity, n, s);
      }
    }
  }

  lemma StuckInside(img: Image, capacity: nat, s: MState)
    requires Fits(capacity, s)
    ensures (exists n :: StuckIn(img, capacity, n, s)) <==> (exists n :: Stuck(img, n, s)) && AllFit(img, capacity, s)
  {
    hide Run, RunIn, Step, Fits, Halted, AllFit, FitsAt;
    forall n: nat
      ensures StuckIn(img, capacity, n, s) <==> Stuck(img, n, s) && AllFit(img, capacity, s)
    {
      RunInIs(img, capacity, n, s);
      if Stuck(img, n, s) {
        HaltedStops(img, n, s);
        StopsInside(img, capacity, n, s);
      }
    }
  }

  lemma OverflowsOutside(img: Image, capacity: nat, s: MState)
    requires Fits(capacity, s)
    ensures (exists n :: OverflowsIn(img, capacity, n, s)) <==> !AllFit(img, capacity, s)
  {
    hide Run, RunIn, Step, Fits, Halted;
    forall n: nat | OverflowsIn(img, capacity, n, s)
      ensures !AllFit(img, capacity, s)
    {
      RunInIs(img, capacity, n, s);
      StepLast(img, n, s);
      assert !FitsAt(img, capacity, n + 1, s);
    }
    if !AllFit(img, capacity, s) {
      var k: nat :| !FitsAt(img, capacity, k, s);
      var n := FirstOutside(img, capacity, k, s);
      assert OverflowsIn(img, capacity, n, s);
    }
  }

  lemma {:induction false} StepLast(img: Image, n: nat, s: MState)
    requires Run(img, n, s).Some?
    ensures Run(img, n + 1, s) == Step(img, Run(img, n, s).value)
  {
    hide Step;
    if n > 0 {
      StepLast(img, n - 1, Step(img, s).value);
    } else {
      assert Step(img, s).Some? ==> Run(img, 0, Step(img, s).value) == Step(img, s);
    }
  }

  // Up to the first state that does not fit the bounded run goes on, and there it overflows.
  lemma {:induction false} FirstOutside(img: Image, capacity: nat, k: nat, s: MState) returns (n: nat)
    requires Fits(capacity, s) && !FitsAt(img, capacity, k, s)
    ensures OverflowsIn(img, capacity, n, s)
    decreases k
  {
    hide Step, Fits;
    assert Run(img, 0, s) == Some(s);
    var s1 := Step(img, s).value;
    if Fits(capacity, s1) {
      n := FirstOutside(img, capacity, k - 1, s1);
      assert RunIn(img, capacity, n + 1, s) == RunIn(img, capacity, n, s1);
      n := n + 1;
    } else {
      n := 0;
      assert RunIn(img, capacity, 0, s) == Some(s);
    }
  }
}
