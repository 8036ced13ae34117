/**
 * The one-time initialisation that `rb_funcallv` and
 * `rb_method_basic_definition_p` (internal/vm.h) expand to at each use:
 *
 *   if (!wrapper) {
 *     wrapper = rb_imemo_new(imemo_call_data, cell, ...);
 *     rb_gc_register_mark_object(wrapper);
 *   }
 *
 * stated over the collector's bookkeeping: `imemos[k]` is the call-data cell
 * that the imemo object with VALUE `k + 1` wraps (an allocated object is never
 * the VALUE 0), and `marks` lists the permanent mark objects in the order they
 * were registered. `C` is the type of the static cells.
 */
module LazyRoot {
  import opened RubyValues

  datatype Registry<C> = Registry(imemos: seq<C>, marks: seq<Value>)

  function Count<T(==)>(s: seq<T>, x: T): nat {
    if s == [] then 0 else Count(s[..|s| - 1], x) + (if s[|s| - 1] == x then 1 else 0)
  }

  lemma CountSnoc<T>(s: seq<T>, y: T, x: T)
    ensures Count(s + [y], x) == Count(s, x) + (if y == x then 1 else 0)
  {
    assert (s + [y])[..|s|] == s;
  }

  lemma {:induction false} CountAbsent<T>(s: seq<T>, x: T)
    requires x !in s
    ensures Count(s, x) == 0
  {
    if s != [] {
      CountAbsent(s[..|s| - 1], x);
    }
  }

  /** Every registered mark object is an object the collector allocated. */
  predicate RootsAllocated<C>(reg: Registry<C>) {
    forall k :: 0 <= k < |reg.marks| ==> 1 <= reg.marks[k] <= |reg.imemos|
  }

  /** Not yet used: `wrapper` is 0 and nothing wraps the cell. */
  predicate Unbound<C(==)>(cell: C, wrapper: Value, reg: Registry<C>) {
    wrapper == 0 && cell !in reg.imemos
  }

  /**
   * Used: `wrapper` is the one imemo that wraps the cell, and it is registered
   * as a mark object exactly once.
   */
  predicate Bound<C(==)>(cell: C, wrapper: Value, reg: Registry<C>) {
    1 <= wrapper <= |reg.imemos| && reg.imemos[wrapper - 1] == cell &&
    Count(reg.imemos, cell) == 1 && Count(reg.marks, wrapper) == 1
  }

  predicate SiteInvariant<C(==)>(cell: C, wrapper: Value, reg: Registry<C>) {
    Unbound(cell, wrapper, reg) || Bound(cell, wrapper, reg)
  }

  /** One pass over the `if (!wrapper) { ... }` block: the new wrapper and registry. */
  function FirstUse<C>(cell: C, wrapper: Value, reg: Registry<C>): (r: (Value, Registry<C>))
    ensures r.0 != 0
    ensures wrapper != 0 ==> r == (wrapper, reg)
    ensures wrapper == 0 ==>
      reg.imemos < r.1.imemos && r.0 == |r.1.imemos| == |reg.imemos| + 1 && r.1.imemos[r.0 - 1] == cell &&
      reg.marks < r.1.marks && |r.1.marks| == |reg.marks| + 1 && r.1.marks[|reg.marks|] == r.0
  {
    if wrapper != 0 then (wrapper, reg)
    else
      var w: Value := |reg.imemos| + 1;
      (w, Registry(reg.imemos + [cell], reg.marks + [w]))
  }

  /**
   * The first use allocates exactly one wrapper for the cell and registers it
   * exactly once; a later use allocates and registers nothing. Either way the
   * site ends up bound.
   */
  lemma FirstUseBinds<C>(cell: C, wrapper: Value, reg: Registry<C>)
    requires RootsAllocated(reg) && SiteInvariant(cell, wrapper, reg)
    ensures var (w, reg') := FirstUse(cell, wrapper, reg);
      RootsAllocated(reg') && Bound(cell, w, reg') &&
      (wrapper != 0 ==> w == wrapper && reg' == reg) &&
      (wrapper == 0 ==> reg' == Registry(reg.imemos + [cell], reg.marks + [w]))
  {
    if wrapper == 0 {
      var w: Value := |reg.imemos| + 1;
      assert w !in reg.marks;
      CountAbsent(reg.imemos, cell);
      CountAbsent(reg.marks, w);
      CountSnoc(reg.imemos, cell, cell);
      CountSnoc(reg.marks, w, w);
      var reg' := Registry(reg.imemos + [cell], reg.marks + [w]);
      assert FirstUse(cell, wrapper, reg) == (w, reg');
    }
  }

  /**
   * Binding one site leaves every other site, bound or not, as it was: the
   * new wrapper wraps a different cell and is a VALUE no earlier mark had.
   */
  lemma FirstUseKeepsOtherSites<C>(cell: C, wrapper: Value, reg: Registry<C>, other: C, otherWrapper: Value)
    requires RootsAllocated(reg) && SiteInvariant(cell, wrapper, reg)
    requires other != cell && SiteInvariant(other, otherWrapper, reg)
    ensures var (_, reg') := FirstUse(cell, wrapper, reg);
      (Unbound(other, otherWrapper, reg) ==> Unbound(other, otherWrapper, reg')) &&
      (Bound(other, otherWrapper, reg) ==> Bound(other, otherWrapper, reg'))
  {
    if wrapper == 0 {
      var w: Value := |reg.imemos| + 1;
      CountSnoc(reg.imemos, cell, other);
      CountSnoc(reg.marks, w, otherWrapper);
    }
  }

  /** `n` consecutive uses of one site; the callee after each use does not touch the registry. */
  function Uses<C>(cell: C, wrapper: Value, reg: Registry<C>, n: nat): (r: (Value, Registry<C>))
    ensures n >= 1 ==> r.0 != 0
    ensures reg.imemos <= r.1.imemos && |r.1.imemos| <= |reg.imemos| + 1
    ensures reg.marks <= r.1.marks && |r.1.marks| <= |reg.marks| + 1
    ensures wrapper != 0 ==> r == (wrapper, reg)
    decreases n
  {
    if n == 0 then (wrapper, reg)
    else
      var (w, reg') := FirstUse(cell, wrapper, reg);
      Uses(cell, w, reg', n - 1)
  }

  /**
   * However many times an unused site is used (at least once), the collector
   * ends up with exactly one more imemo, wrapping the cell, and exactly one
   * more mark object, that imemo.
   */
  lemma {:induction false} UsesAllocateOnce<C>(cell: C, reg: Registry<C>, n: nat)
    requires n >= 1
    ensures var (w, reg') := Uses(cell, 0, reg, n);
      w == |reg.imemos| + 1 && reg' == Registry(reg.imemos + [cell], reg.marks + [w])
  {
    var (w, reg1) := FirstUse(cell, 0, reg);
    LaterUsesChangeNothing(cell, w, reg1, n - 1);
  }

  lemma {:induction false} LaterUsesChangeNothing<C>(cell: C, wrapper: Value, reg: Registry<C>, n: nat)
    requires wrapper != 0
    ensures Uses(cell, wrapper, reg, n) == (wrapper, reg)
  {
    if n > 0 {
      LaterUsesChangeNothing(cell, wrapper, reg, n - 1);
    }
  }
}
