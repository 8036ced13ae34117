/**
 * The two GNU C statement-expression macros of internal/vm.h that give a
 * C-level call site its own inline method cache: `rb_funcallv` and
 * `rb_method_basic_definition_p`. Each expansion owns a static
 * `struct rb_call_data` (zero-filled at program start) and a static `VALUE
 * wrapper` (0 at program start). The first time the expansion runs it wraps
 * the cell in an imemo object and registers that object as a permanent GC
 * root; every run then hands the same cell to the out-of-line `*_with_cc`
 * function.
 */
module AdHocCall {
  import opened Wrappers
  import opened CallCacheLayout
  import opened RubyValues
  import opened CallStructs
  import LazyRoot

  /** The storage of one `static struct rb_call_data`. */
  class CallDataCell {
    var contents: CallData

    /** Static storage starts zero-filled. */
    constructor (c: Config)
      requires c.platform.serial.size >= 1
      ensures contents == ZeroCallData(c)
    {
      contents := ZeroCallData(c);
    }
  }

  /**
   * The parts of the garbage collector the macros use: the compaction counter,
   * the call-data imemos allocated so far (the one at index `k` has VALUE
   * `k + 1`) and the permanent mark objects, in registration order.
   */
  class Gc {
    var compactCount: nat
    var imemos: seq<CallDataCell>
    var markObjects: seq<Value>

    function Registry(): LazyRoot.Registry<CallDataCell>
      reads this
    {
      LazyRoot.Registry(imemos, markObjects)
    }

    ghost predicate Valid()
      reads this
    {
      LazyRoot.RootsAllocated(Registry())
    }

    constructor ()
      ensures Valid() && compactCount == 0 && imemos == [] && markObjects == []
    {
      compactCount := 0;
      imemos := [];
      markObjects := [];
    }

    /** `rb_gc_compact_count()`. */
    method CompactCount() returns (n: nat)
      ensures n == compactCount
    {
      n := compactCount;
    }

    /**
     * `rb_imemo_new(imemo_call_data, (VALUE)cell, 0, 0, (VALUE)cell)`: a new
     * object wrapping the cell. Its VALUE is never 0 (Qfalse).
     */
    method ImemoNewCallData(cell: CallDataCell) returns (obj: Value)
      modifies this
      ensures imemos == old(imemos) + [cell] && obj == |imemos| && obj != Qfalse
      ensures markObjects == old(markObjects) && compactCount == old(compactCount)
    {
      imemos := imemos + [cell];
      obj := |imemos|;
    }

    /** `rb_gc_register_mark_object(obj)`: `obj` is marked on every collection from now on. */
    method RegisterMarkObject(obj: Value)
      modifies this
      ensures markObjects == old(markObjects) + [obj]
      ensures imemos == old(imemos) && compactCount == old(compactCount)
    {
      markObjects := markObjects + [obj];
    }
  }

  /** One call of `rb_funcallv_with_cc`: the cell and its contents as handed over, the arguments, the result. */
  datatype FuncallvCall =
    FuncallvCall(cd: CallDataCell, seen: CallData, recv: Value, mid: Id, argc: int, argv: seq<Value>, result: Value)

  /** One call of `rb_method_basic_definition_p_with_cc`. */
  datatype BasicDefinitionCall =
    BasicDefinitionCall(cd: CallDataCell, seen: CallData, klass: Value, mid: Id, result: bool)

  /**
   * The out-of-line halves of the two macros, declared at internal/vm.h:164-166
   * (vm_method.c, not part of this model). Each may rewrite the cell it is given and returns a
   * result this model does not compute; the ghost logs record every call.
   */
  class Vm {
    ghost var funcallvCalls: seq<FuncallvCall>
    ghost var basicDefinitionCalls: seq<BasicDefinitionCall>

    constructor ()
      ensures funcallvCalls == [] && basicDefinitionCalls == []
    {
      funcallvCalls := [];
      basicDefinitionCalls := [];
    }

    /** `rb_funcallv_with_cc(cd, recv, mid, argc, argv)`. */
    method FuncallvWithCc(cd: CallDataCell, recv: Value, mid: Id, argc: int, argv: seq<Value>) returns (r: Value)
      modifies this, cd
      ensures funcallvCalls == old(funcallvCalls) + [FuncallvCall(cd, old(cd.contents), recv, mid, argc, argv, r)]
      ensures basicDefinitionCalls == old(basicDefinitionCalls)
    {
      r := *;
      funcallvCalls := funcallvCalls + [FuncallvCall(cd, cd.contents, recv, mid, argc, argv, r)];
    }

    /** `rb_method_basic_definition_p_with_cc(cd, klass, mid)`. */
    method MethodBasicDefinitionPWithCc(cd: CallDataCell, klass: Value, mid: Id) returns (b: bool)
      modifies this, cd
      ensures basicDefinitionCalls == old(basicDefinitionCalls) + [BasicDefinitionCall(cd, old(cd.contents), klass, mid, b)]
      ensures funcallvCalls == old(funcallvCalls)
    {
      b := *;
      basicDefinitionCalls := basicDefinitionCalls + [BasicDefinitionCall(cd, cd.contents, klass, mid, b)];
    }
  }

  /** The cell's contents after the `if (!wrapper) { SET_COMPACT_COUNT(...) ... }` block. */
  function Initialised(c: Config, wrapper: Value, d: CallData, count: nat): (d': CallData)
    requires c.platform.serial.size >= 1
    ensures wrapper != 0 ==> d' == d
    ensures wrapper == 0 && c.debugCompact ==>
      d'.cc.compactCount == Some(count) && d'.cc.(compactCount := d.cc.compactCount) == d.cc
    ensures !c.debugCompact ==> d' == d
    ensures d'.ci == d.ci
  {
    if wrapper == 0 then SetCompactCount(c, d, count) else d
  }

  /** The static state one expansion of either macro owns. */
  class AdHocCallSite {
    const config: Config
    const cell: CallDataCell
    var wrapper: Value

    /**
     * The site is either unused (`wrapper` is 0 and no imemo wraps the cell)
     * or bound (`wrapper` is the only imemo wrapping the cell, registered as
     * a mark object exactly once).
     */
    ghost predicate Valid(gc: Gc)
      reads this, gc
    {
      config.platform.serial.size >= 1 &&
      LazyRoot.SiteInvariant(cell, wrapper, gc.Registry())
    }

    /** The two statics at program start. */
    constructor (c: Config, gc: Gc)
      requires c.platform.serial.size >= 1
      ensures config == c && fresh(cell) && cell.contents == ZeroCallData(c) && wrapper == 0
      ensures Valid(gc)
    {
      config := c;
      cell := new CallDataCell(c);
      wrapper := 0;
    }

    /**
     * `if (!wrapper) { SET_COMPACT_COUNT(cell) wrapper = rb_imemo_new(...);
     * rb_gc_register_mark_object(wrapper); }`.
     */
    method Bind(gc: Gc)
      requires gc.Valid() && Valid(gc)
      modifies this, gc, cell
      ensures gc.Valid() && Valid(gc) && wrapper != 0
      ensures (wrapper, gc.Registry()) == LazyRoot.FirstUse(cell, old(wrapper), old(gc.Registry()))
      ensures gc.compactCount == old(gc.compactCount)
      ensures cell.contents == Initialised(config, old(wrapper), old(cell.contents), old(gc.compactCount))
    {
      LazyRoot.FirstUseBinds(cell, wrapper, gc.Registry());
      if wrapper == 0 {
        var n := gc.CompactCount();
        cell.contents := SetCompactCount(config, cell.contents, n);
        wrapper := gc.ImemoNewCallData(cell);
        gc.RegisterMarkObject(wrapper);
      }
    }

    /** `rb_funcallv(recv, mid, argc, argv)`: bind on first use, then call through the cell. */
    method Funcallv(gc: Gc, vm: Vm, recv: Value, mid: Id, argc: int, argv: seq<Value>) returns (r: Value)
      requires gc.Valid() && Valid(gc)
      modifies this, gc, cell, vm
      ensures gc.Valid() && Valid(gc) && wrapper != 0
      ensures (wrapper, gc.Registry()) == LazyRoot.FirstUse(cell, old(wrapper), old(gc.Registry()))
      ensures gc.compactCount == old(gc.compactCount)
      ensures vm.funcallvCalls == old(vm.funcallvCalls) + [FuncallvCall(
        cell, Initialised(config, old(wrapper), old(cell.contents), old(gc.compactCount)), recv, mid, argc, argv, r)]
      ensures vm.basicDefinitionCalls == old(vm.basicDefinitionCalls)
    {
      Bind(gc);
      r := vm.FuncallvWithCc(cell, recv, mid, argc, argv);
    }

    /**
     * `rb_method_basic_definition_p(klass, mid)`: bind on first use; then a
     * hidden object (`klass == Qfalse`) answers true without a lookup, and any
     * other class asks the VM through the cell.
     */
    method MethodBasicDefinitionP(gc: Gc, vm: Vm, klass: Value, mid: Id) returns (b: bool)
      requires gc.Valid() && Valid(gc)
      modifies this, gc, cell, vm
      ensures gc.Valid() && Valid(gc) && wrapper != 0
      ensures (wrapper, gc.Registry()) == LazyRoot.FirstUse(cell, old(wrapper), old(gc.Registry()))
      ensures gc.compactCount == old(gc.compactCount)
      ensures vm.funcallvCalls == old(vm.funcallvCalls)
      ensures klass == Qfalse ==>
        b && vm.basicDefinitionCalls == old(vm.basicDefinitionCalls) &&
        cell.contents == Initialised(config, old(wrapper), old(cell.contents), old(gc.compactCount))
      ensures klass != Qfalse ==>
        vm.basicDefinitionCalls == old(vm.basicDefinitionCalls) + [BasicDefinitionCall(
          cell, Initialised(config, old(wrapper), old(cell.contents), old(gc.compactCount)), klass, mid, b)]
    {
      Bind(gc);
      if klass == Qfalse {
        b := true;
      } else {
        b := vm.MethodBasicDefinitionPWithCc(cell, klass, mid);
      }
    }
  }

  /**
   * A C file with one expansion of each macro, each run twice: every
   * expansion allocates and registers exactly one root, on its first run, and
   * keeps handing the VM its own cell.
   */
  method TwoExpansions(gc: Gc, vm: Vm, c: Config, recv: Value, klass: Value, mid: Id)
    returns (f: AdHocCallSite, m: AdHocCallSite)
    requires gc.Valid() && c.platform.serial.size >= 1
    modifies gc, vm
    ensures gc.Valid() && f.Valid(gc) && m.Valid(gc) && f.cell != m.cell
    ensures f.wrapper == |old(gc.imemos)| + 1 && m.wrapper == |old(gc.imemos)| + 2
    ensures gc.imemos == old(gc.imemos) + [f.cell, m.cell]
    ensures gc.markObjects == old(gc.markObjects) + [f.wrapper, m.wrapper]
    ensures |vm.funcallvCalls| == |old(vm.funcallvCalls)| + 2
    ensures vm.funcallvCalls[|old(vm.funcallvCalls)|].cd == f.cell && vm.funcallvCalls[|old(vm.funcallvCalls)| + 1].cd == f.cell
    ensures klass == Qfalse ==> vm.basicDefinitionCalls == old(vm.basicDefinitionCalls)
    ensures klass != Qfalse ==>
      |vm.basicDefinitionCalls| == |old(vm.basicDefinitionCalls)| + 1 &&
      vm.basicDefinitionCalls[|old(vm.basicDefinitionCalls)|].cd == m.cell
  {
    f := new AdHocCallSite(c, gc);
    m := new AdHocCallSite(c, gc);

    LazyRoot.FirstUseKeepsOtherSites(f.cell, f.wrapper, gc.Registry(), m.cell, m.wrapper);
    var r1 := f.Funcallv(gc, vm, recv, mid, 0, []);
    LazyRoot.FirstUseKeepsOtherSites(m.cell, m.wrapper, gc.Registry(), f.cell, f.wrapper);
    var b1 := m.MethodBasicDefinitionP(gc, vm, klass, mid);

    var r2 := f.Funcallv(gc, vm, recv, mid, 0, []);
    var b2 := m.MethodBasicDefinitionP(gc, vm, Qfalse, mid);
  }
}
