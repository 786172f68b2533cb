/** Reading and writing a variable by name, and by address: the same effect. */
module Variables {
  import opened Bytes
  import opened Language
  import opened Semantics
  import opened Analysis
  import opened Commands
  import opened Codegen
  import opened Machine
  import opened Relation
  import opened Scoping

  // ----- what it means for the executable to be linked -----

  ghost predicate GlobalsLinked(K: Setup) {
    (forall x :: x in K.P.globals <==> x in K.G && K.G[x].GVar?) &&
    (forall x :: x in K.P.globals ==> K.G[x] == GVar(K.P.globals[x]) && x in K.link.slots) &&
    (forall x, y :: x in K.P.globals && y in K.P.globals && x != y ==>
      K.link.slots[x] + SlotSize(K.P.globals[x]) <= K.link.slots[y] ||
      K.link.slots[y] + SlotSize(K.P.globals[y]) <= K.link.slots[x])
  }

  ghost predicate NativesLinked(K: Setup) {
    forall f :: f in K.G && K.G[f].GFunc? && K.G[f].sig.native ==>
      f in K.P.natives && K.P.natives[f] == K.G[f].sig &&
      (f in K.link.natives ==>
        K.link.natives[f] < |K.img.natives| && K.img.natives[K.link.natives[f]] == Native(f, K.G[f].sig))
  }

  ghost predicate FuncsLinked(K: Setup) {
    forall f :: f in K.G && K.G[f].GFunc? && !K.G[f].sig.native ==> FuncLinked(K, f)
  }

  ghost predicate FuncLinked(K: Setup, f: string)
    requires f in K.G && K.G[f].GFunc?
  {
    f !in K.P.natives && f in K.P.funcs && K.G[f].sig == SigOf(K.P.funcs[f]) &&
    f in K.views && Extends(K.views[f], K.G) && f in K.defs &&
    AnalyzeFunc(K.views[f], K.P.funcs[f]) == Some(K.defs[f]) && GenerableAll(K.defs[f].body) &&
    f in K.link.funcs && At(K, K.link.funcs[f], GenFunc(K.defs[f]), 0, 0, true)
  }

  // The executable holds the code of every function at the address its name stands for, a native of
  // the declared signature at the index of every native in use, and disjoint slots for the globals.
  ghost predicate Linked(K: Setup) {
    GlobalsLinked(K) && NativesLinked(K) && FuncsLinked(K) && K.img.prims == K.P.prims
  }

  // ----- variables -----

  lemma ValsUpdate(env: seq<Var>, n: nat, k: nat, raw: Raw)
    requires k < n <= |env|
    ensures Vals(env[k := env[k].(raw := Some(raw))][..n]) == Vals(env[..n])[k := Val(env[k].ty, raw)]
  {
  }

  lemma EnvWrite(scopes: seq<Scope>, env: seq<Var>, k: nat, raw: Raw)
    requires EnvMatch(scopes, env) && EnvOk(env)
    requires k < LiveLen(env)
    ensures var env1 := env[k := env[k].(raw := Some(raw))];
      EnvMatch(scopes, env1) && EnvOk(env1) && LiveLen(env1) == LiveLen(env)
  {
  }

  // Storing at a live local's place is assigning the variable.
  lemma LocalWrite(K: Setup, cx: Ctx, st: SState, base: seq<Value>, m: MState, x: string, raw: Raw)
    requires Rel(K, cx, st, base, m)
    requires 0 <= Find(st.env, x) < LiveLen(st.env)
    ensures var k := Find(st.env, x);
      WriteVar(K.P, st, x, raw) == Some(st.(env := st.env[k := st.env[k].(raw := Some(raw))]))
      && |base| + k < |m.locals|
      && Rel(K, cx, WriteVar(K.P, st, x, raw).value, base, m.(locals := m.locals[|base| + k := Val(st.env[k].ty, raw)]))
  {
    hide GlobalsMatch, EnvMatch, Nested, Extends, Find;
    var k := Find(st.env, x);
    var n := LiveLen(st.env);
    EnvWrite(cx.scopes, st.env, k, raw);
    ValsUpdate(st.env, n, k, raw);
    var v := Val(st.env[k].ty, raw);
    assert (base + Vals(st.env[..n]))[|base| + k := v] == base + Vals(st.env[..n])[k := v];
  }

  // The address of a live local leads to its value, and to nothing else.
  lemma LocalByAddress(K: Setup, cx: Ctx, st: SState, base: seq<Value>, m: MState, x: string)
    requires Rel(K, cx, st, base, m)
    requires 0 <= Find(st.env, x) < LiveLen(st.env)
    ensures var k := Find(st.env, x);
      var a := AddrLocal(FrameStart(m) + Slots(Flat(cx.scopes)[k].flow));
      && a.slot < Extent(m.locals)
      && ReadVar(K.P, st, x).Some?
      && ReadAddr(m, a, st.env[k].ty) == Some(ReadVar(K.P, st, x).value.raw)
      && |base| + k < |m.locals|
      && (forall raw :: WriteAddr(m, a, Val(st.env[k].ty, raw)) ==
            Some(m.(locals := m.locals[|base| + k := Val(st.env[k].ty, raw)])))
  {
    hide GlobalsMatch, Nested, Extends, Find, Extent, AtSlot, Slots;
    var k := Find(st.env, x);
    SlotOfLocal(K, cx, st, base, m, k);
    assert m.locals[|base| + k] == Vals(st.env[..LiveLen(st.env)])[k];
  }

  lemma GlobalRead(K: Setup, st: SState, m: MState, x: string)
    requires GlobalsLinked(K) && GlobalsMatch(K, st.globals, m.globals)
    requires x in K.P.globals && Find(st.env, x) < 0
    ensures ReadGlobal(m.globals, K.P.globals[x], K.link.slots[x]) == ReadVar(K.P, st, x)
    ensures ReadVar(K.P, st, x).None? ==> K.P.globals[x] == String && x !in st.globals
    ensures ReadVar(K.P, st, x).Some? ==> ReadVar(K.P, st, x).value.ty == K.P.globals[x]
  {
  }

  lemma GlobalClear(K: Setup, g: map<string, Value>, mg: map<nat, Value>, x: string)
    requires GlobalsLinked(K) && GlobalsMatch(K, g, mg)
    requires x in K.P.globals
    ensures Clear(mg, K.P.globals[x], K.link.slots[x])
  {
    var slot := K.link.slots[x];
    forall k | k in mg && k != slot
      ensures k + SlotSize(mg[k].ty) <= slot || slot + SlotSize(K.P.globals[x]) <= k
    {
      var y :| y in K.P.globals && y in K.link.slots && K.link.slots[y] == k;
      assert y in g && mg[k] == g[y];
    }
  }

  lemma SlotsDiffer(K: Setup, x: string)
    requires GlobalsLinked(K) && x in K.P.globals
    ensures forall y :: y in K.P.globals && y != x ==> K.link.slots[y] != K.link.slots[x]
  {
  }

  lemma GlobalUpdate(K: Setup, g: map<string, Value>, mg: map<nat, Value>, x: string, v: Value)
    requires GlobalsLinked(K) && GlobalsMatch(K, g, mg)
    requires x in K.P.globals && v.ty == K.P.globals[x]
    ensures GlobalsMatch(K, g[x := v], mg[K.link.slots[x] := v])
  {
    hide SlotSize;
    var slot := K.link.slots[x];
    var mg1 := mg[slot := v];
    forall k | k in mg1
      ensures exists y :: y in K.P.globals && y in K.link.slots && K.link.slots[y] == k
    {
      if k == slot {
        assert x in K.P.globals;
      } else {
        assert k in mg;
      }
    }
    SlotsDiffer(K, x);
  }

  // A store to a global's slot overlaps no other global, and is the assignment of that global.
  lemma GlobalWrite(K: Setup, g: map<string, Value>, mg: map<nat, Value>, x: string, v: Value)
    requires GlobalsLinked(K) && GlobalsMatch(K, g, mg)
    requires x in K.P.globals && v.ty == K.P.globals[x]
    ensures WriteGlobal(mg, K.link.slots[x], v) == Some(mg[K.link.slots[x] := v])
    ensures GlobalsMatch(K, g[x := v], mg[K.link.slots[x] := v])
  {
    GlobalClear(K, g, mg, x);
    GlobalUpdate(K, g, mg, x, v);
    assert K.link.slots[x] in mg ==> mg[K.link.slots[x]].ty == v.ty;
  }
}
