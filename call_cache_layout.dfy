/**
 * Layout of `struct rb_call_cache` (internal/vm.h): the length of the
 * `class_serial` array is computed so that the struct fills one cache line,
 * and a static assertion promises that the padded struct fits in it.
 *
 * Sizes and alignments of the C scalar types are parameters (a `Platform`),
 * DEBUG_COMPACT is a boolean, and the struct's size follows the usual
 * sequential layout: each field starts at the next multiple of its own
 * alignment, and the whole is rounded up to the largest alignment.
 */
module CallCacheLayout {

  /** `#define CACHELINE 64` */
  const CACHELINE: nat := 64

  /** Size and alignment, in bytes, of one C type. */
  datatype Scalar = Scalar(size: nat, align: nat)

  /**
   * The C types the struct is built from: `rb_serial_t`; any data or function
   * pointer, and `uintptr_t`; `enum method_missing_reason`; `unsigned int`;
   * `size_t`.
   */
  datatype Platform = Platform(serial: Scalar, pointer: Scalar, enumType: Scalar, uint: Scalar, sizeT: Scalar)

  /** A build: a platform, and whether DEBUG_COMPACT is on. */
  datatype Config = Config(platform: Platform, debugCompact: bool)

  predicate ScalarOk(s: Scalar) {
    s.size >= 1 && s.align >= 1
  }

  predicate PlatformOk(p: Platform) {
    ScalarOk(p.serial) && ScalarOk(p.pointer) && ScalarOk(p.enumType) && ScalarOk(p.uint) && ScalarOk(p.sizeT)
  }

  /** 64-bit pointers (LP64): serial 8, pointer 8, enum 4, size_t 8. */
  const LP64 := Platform(Scalar(8, 8), Scalar(8, 8), Scalar(4, 4), Scalar(4, 4), Scalar(8, 8))

  /** 32-bit pointers (ILP32): serial 8, pointer 4, enum 4, size_t 4. */
  const ILP32 := Platform(Scalar(8, 8), Scalar(4, 4), Scalar(4, 4), Scalar(4, 4), Scalar(4, 4))

  /** 32-bit x86 System V, where a 64-bit integer is only 4-byte aligned inside a struct. */
  const I386 := Platform(Scalar(8, 4), Scalar(4, 4), Scalar(4, 4), Scalar(4, 4), Scalar(4, 4))

  const SupportedPlatforms: set<Platform> := {LP64, ILP32, I386}

  /** `256^n`: the number of values an `n`-byte unsigned integer holds. */
  function ByteRange(n: nat): (r: nat)
    ensures r >= 1
  {
    if n == 0 then 1 else 256 * ByteRange(n - 1)
  }

  /** Arithmetic on `size_t` is modulo this number. */
  function SizeTModulus(p: Platform): nat {
    ByteRange(p.sizeT.size)
  }

  /**
   * What the length expression subtracts from CACHELINE: `method_state`, `me`,
   * `method_serial`, `aux` (counted as the enum), `call` and, under
   * DEBUG_COMPACT, `compact_count`.
   */
  function FixedBytes(c: Config): nat {
    var p := c.platform;
    p.serial.size + p.pointer.size + p.pointer.size + p.enumType.size + p.pointer.size
      + (if c.debugCompact then p.sizeT.size else 0)
  }

  lemma SumSizesSnoc(fs: seq<Scalar>, f: Scalar)
    ensures SumSizes(fs + [f]) == SumSizes(fs) + f.size
  {
    assert (fs + [f])[..|fs|] == fs;
  }

  /**
   * The subtrahends are the sizes of every field but `class_serial`, except
   * that `aux` is counted as the enum rather than as the union.
   */
  lemma FixedBytesAreOtherFields(c: Config)
    ensures FixedBytes(c) + AuxUnion(c.platform).size
      == SumSizes(FieldsWith(c.platform, c.debugCompact, 0)) + c.platform.enumType.size
  {
    OtherFieldsSum(c.platform, c.debugCompact);
  }

  /** With an empty `class_serial`, the fields add up to `method_state`, three pointers, `compact_count` and `aux`. */
  lemma OtherFieldsSum(p: Platform, debugCompact: bool)
    ensures SumSizes(FieldsWith(p, debugCompact, 0))
      == p.serial.size + 3 * p.pointer.size + (if debugCompact then p.sizeT.size else 0) + AuxUnion(p).size
  {
    var f1 := [p.serial];
    assert f1 == [] + [p.serial];
    SumSizesSnoc([], p.serial);
    var f2 := f1 + [ArrayOf(p.serial, 0)];
    SumSizesSnoc(f1, ArrayOf(p.serial, 0));
    var f3 := f2 + [p.pointer];
    SumSizesSnoc(f2, p.pointer);
    var f4 := f3 + [p.pointer];
    SumSizesSnoc(f3, p.pointer);
    var f5 := f4 + [p.pointer];
    SumSizesSnoc(f4, p.pointer);
    var f6 := f5;
    if debugCompact {
      f6 := f5 + [p.sizeT];
      SumSizesSnoc(f5, p.sizeT);
    }
    SumSizesSnoc(f6, AuxUnion(p));
    assert FieldsWith(p, debugCompact, 0) == f6 + [AuxUnion(p)];
  }

  /**
   * The length of `class_serial`. The subtraction is done in `size_t`, so a
   * negative difference wraps around before the division.
   */
  function ClassSerialLength(c: Config): (n: nat)
    requires c.platform.serial.size >= 1
    ensures c.platform.sizeT.size >= 1 && FixedBytes(c) <= CACHELINE ==>
      FixedBytes(c) + n * c.platform.serial.size <= CACHELINE < FixedBytes(c) + (n + 1) * c.platform.serial.size
  {
    var fixed, m, s := FixedBytes(c), SizeTModulus(c.platform), c.platform.serial.size;
    var room: nat := (CACHELINE - fixed) % m;
    var n: nat := WholeElements(room, s);
    if c.platform.sizeT.size >= 1 && fixed <= CACHELINE then
      ByteRangeAtLeast(c.platform.sizeT.size);
      LongestThatFits(fixed, m, s, n);
      n
    else
      n
  }

  /** How many `s`-byte elements fit in `room` bytes. */
  function WholeElements(room: nat, s: nat): (n: nat)
    requires s >= 1
  {
    room / s
  }


  /**
   * When `fixed` bytes fit in the line and `size_t` holds more than a line,
   * the wrapped difference divided by `s` is the largest count of `s`-byte
   * elements that fits beside them.
   */
  lemma LongestThatFits(fixed: nat, m: nat, s: nat, n: nat)
    requires s >= 1 && fixed <= CACHELINE && m >= 256
    requires n == WholeElements((CACHELINE - fixed) % m, s)
    ensures fixed + n * s <= CACHELINE < fixed + (n + 1) * s
  {
    var room := CACHELINE - fixed;
    NoWrap(room, m);
    DivisionBounds(room, s);
  }


  /** The `aux` union of `unsigned int` and the enum. */
  function AuxUnion(p: Platform): Scalar {
    Scalar(Max(p.uint.size, p.enumType.size), Max(p.uint.align, p.enumType.align))
  }

  function Max(a: nat, b: nat): nat {
    if a < b then b else a
  }

  /** `n` consecutive elements of type `t`. */
  function ArrayOf(t: Scalar, n: nat): Scalar {
    Scalar(n * t.size, t.align)
  }

  /** The fields of `struct rb_call_cache`, in declaration order. */
  function Fields(c: Config): (fs: seq<Scalar>)
    requires c.platform.serial.size >= 1
    ensures |fs| == if c.debugCompact then 7 else 6
    ensures PlatformOk(c.platform) ==> Aligned(fs)
  {
    FieldsWith(c.platform, c.debugCompact, ClassSerialLength(c))
  }

  /** The fields, for a `class_serial` of `n` elements. */
  function FieldsWith(p: Platform, debugCompact: bool, n: nat): (fs: seq<Scalar>)
    ensures |fs| == if debugCompact then 7 else 6
    ensures PlatformOk(p) ==> Aligned(fs)
  {
    [ p.serial,                                          // method_state
      ArrayOf(p.serial, n),                              // class_serial[n]
      p.pointer,                                         // me
      p.pointer,                                         // method_serial
      p.pointer ]                                        // call
    + (if debugCompact then [p.sizeT] else [])           // compact_count
    + [AuxUnion(p)]                                      // aux
  }

  // ----- sequential struct layout -----

  predicate Aligned(fs: seq<Scalar>) {
    forall i :: 0 <= i < |fs| ==> fs[i].align >= 1
  }

  /** A multiple of `a` leaves no remainder: the uniqueness of Euclidean division. */
  lemma MultipleHasNoRemainder(a: nat, k: nat)
    requires a >= 1
    ensures (a * k) % a == 0
  {
    var q, r := (a * k) / a, (a * k) % a;
    assert a * k == a * q + r;
    var d := k - q;
    assert a * d == r by {
      assert a * k - a * q == a * (k - q);
    }
    if d >= 1 {
      assert false;
    } else if d <= -1 {
      assert false;
    }
  }

  /** The smallest multiple of `a` that is at least `n`. */
  function AlignUp(n: nat, a: nat): (r: nat)
    requires a >= 1
    ensures r % a == 0 && n <= r < n + a
  {
    if n % a == 0 then n
    else
      MultipleHasNoRemainder(a, n / a + 1);
      assert n - n % a + a == a * (n / a + 1);
      n - n % a + a
  }

  /** The offset just past the last field, before the trailing padding. */
  function End(fs: seq<Scalar>): nat
    requires Aligned(fs)
  {
    if fs == [] then 0
    else AlignUp(End(fs[..|fs| - 1]), fs[|fs| - 1].align) + fs[|fs| - 1].size
  }

  /** The strictest alignment among the fields. */
  function MaxAlign(fs: seq<Scalar>): (m: nat)
    ensures m >= 1
  {
    if fs == [] then 1 else Max(MaxAlign(fs[..|fs| - 1]), fs[|fs| - 1].align)
  }

  /** `sizeof` of a struct with the fields `fs`. */
  function SizeOf(fs: seq<Scalar>): nat
    requires Aligned(fs)
  {
    AlignUp(End(fs), MaxAlign(fs))
  }

  function SumSizes(fs: seq<Scalar>): nat {
    if fs == [] then 0 else SumSizes(fs[..|fs| - 1]) + fs[|fs| - 1].size
  }

  /**
   * Padding never loses bytes: the struct holds every field, and its size is a
   * whole number of its strictest alignment (so that arrays of it stay aligned).
   */
  lemma {:induction false} SizeOfCoversFields(fs: seq<Scalar>)
    requires Aligned(fs)
    ensures SumSizes(fs) <= End(fs) <= SizeOf(fs)
    ensures SizeOf(fs) % MaxAlign(fs) == 0
  {
    if fs != [] {
      var init := fs[..|fs| - 1];
      assert Aligned(init);
      SizeOfCoversFields(init);
    }
  }

  /** Appending a field places it at the next multiple of its alignment. */
  lemma PlaceNext(fs: seq<Scalar>, f: Scalar, e: nat, m: nat)
    requires Aligned(fs) && f.align >= 1 && End(fs) == e && MaxAlign(fs) == m
    ensures Aligned(fs + [f])
    ensures End(fs + [f]) == AlignUp(e, f.align) + f.size
    ensures MaxAlign(fs + [f]) == Max(m, f.align)
  {
    assert (fs + [f])[..|fs|] == fs;
  }

  /** `sizeof(struct rb_call_cache)`. */
  function CallCacheSize(c: Config): (r: nat)
    requires PlatformOk(c.platform)
    ensures SumSizes(Fields(c)) <= End(Fields(c)) <= r < End(Fields(c)) + MaxAlign(Fields(c))
    ensures r % MaxAlign(Fields(c)) == 0
  {
    SizeOfCoversFields(Fields(c));
    SizeOf(Fields(c))
  }

  /**
   * `STATIC_ASSERT(cachelined, sizeof(struct rb_call_cache) <= CACHELINE)`.
   * When it holds, every byte of every field lies within the one line.
   */
  predicate CacheLined(c: Config): (b: bool)
    requires PlatformOk(c.platform)
    ensures b ==> SumSizes(Fields(c)) <= End(Fields(c)) <= CACHELINE
  {
    CallCacheSize(c) <= CACHELINE
  }

  lemma {:induction false} ByteRangeAtLeast(n: nat)
    requires n >= 1
    ensures ByteRange(n) >= 256
  {
    if n > 1 {
      ByteRangeAtLeast(n - 1);
    }
  }

  /**
   * When the other fields fit in the line, the `size_t` subtraction does not
   * wrap, and `class_serial` is the longest array of serials that fits in
   * what is left: one more element would overflow the line.
   */
  lemma ClassSerialFills(c: Config)
    requires PlatformOk(c.platform) && FixedBytes(c) <= CACHELINE
    ensures ClassSerialLength(c) == (CACHELINE - FixedBytes(c)) / c.platform.serial.size
    ensures FixedBytes(c) + ClassSerialLength(c) * c.platform.serial.size <= CACHELINE
    ensures CACHELINE < FixedBytes(c) + (ClassSerialLength(c) + 1) * c.platform.serial.size
  {
    var room := CACHELINE - FixedBytes(c);
    ByteRangeAtLeast(c.platform.sizeT.size);
    NoWrap(room, SizeTModulus(c.platform));
    DivisionBounds(room, c.platform.serial.size);
  }

  lemma NoWrap(x: int, m: nat)
    requires 0 <= x < m
    ensures x % m == x
  {
  }

  /** `x / s` whole elements of `s` bytes fit in `x` bytes, one more does not. */
  lemma DivisionBounds(x: nat, s: nat)
    requires s >= 1
    ensures (x / s) * s <= x < (x / s + 1) * s
  {
    var n := x / s;
    assert x == s * n + x % s;
    assert (n + 1) * s == n * s + s;
  }

  /** The five fields before `compact_count`. */
  function Head(p: Platform, n: nat): seq<Scalar> {
    [p.serial, ArrayOf(p.serial, n), p.pointer, p.pointer, p.pointer]
  }

  /**
   * The fields up to `call` end at `o5`, having passed through the ends
   * `o1`..`o4`, and their strictest alignment is `m5`.
   */
  lemma HeadLaidOut(p: Platform, n: nat, o1: nat, o2: nat, o3: nat, o4: nat, o5: nat, m5: nat)
    requires PlatformOk(p)
    requires o1 == p.serial.size
    requires o2 == AlignUp(o1, p.serial.align) + n * p.serial.size
    requires o3 == AlignUp(o2, p.pointer.align) + p.pointer.size
    requires o4 == AlignUp(o3, p.pointer.align) + p.pointer.size
    requires o5 == AlignUp(o4, p.pointer.align) + p.pointer.size
    requires m5 == Max(p.serial.align, p.pointer.align)
    ensures Aligned(Head(p, n)) && End(Head(p, n)) == o5 && MaxAlign(Head(p, n)) == m5
  {
    var arr := ArrayOf(p.serial, n);
    var f0: seq<Scalar> := [];
    PlaceNext(f0, p.serial, 0, 1);
    var f1 := f0 + [p.serial];
    PlaceNext(f1, arr, o1, p.serial.align);
    var f2 := f1 + [arr];
    PlaceNext(f2, p.pointer, o2, p.serial.align);
    var f3 := f2 + [p.pointer];
    PlaceNext(f3, p.pointer, o3, m5);
    var f4 := f3 + [p.pointer];
    PlaceNext(f4, p.pointer, o4, m5);
    assert Head(p, n) == f4 + [p.pointer];
  }

  /**
   * `sizeof(struct rb_call_cache)` from the offsets `o1`..`o7` at which its
   * fields end and the strictest alignments `m5`..`m7` seen so far.
   */
  lemma CallCacheLaidOut(p: Platform, debug: bool, n: nat, o1: nat, o2: nat, o3: nat, o4: nat, o5: nat, o6: nat, o7: nat, m5: nat, m6: nat, m7: nat)
    requires PlatformOk(p)
    requires o1 == p.serial.size
    requires o2 == AlignUp(o1, p.serial.align) + n * p.serial.size
    requires o3 == AlignUp(o2, p.pointer.align) + p.pointer.size
    requires o4 == AlignUp(o3, p.pointer.align) + p.pointer.size
    requires o5 == AlignUp(o4, p.pointer.align) + p.pointer.size
    requires m5 == Max(p.serial.align, p.pointer.align)
    requires o6 == (if debug then AlignUp(o5, p.sizeT.align) + p.sizeT.size else o5)
    requires m6 == (if debug then Max(m5, p.sizeT.align) else m5)
    requires o7 == AlignUp(o6, AuxUnion(p).align) + AuxUnion(p).size
    requires m7 == Max(m6, AuxUnion(p).align)
    ensures SizeOf(FieldsWith(p, debug, n)) == AlignUp(o7, m7)
  {
    var aux := AuxUnion(p);
    var f5 := Head(p, n);
    HeadLaidOut(p, n, o1, o2, o3, o4, o5, m5);
    var f6 := f5;
    if debug {
      PlaceNext(f5, p.sizeT, o5, m5);
      f6 := f5 + [p.sizeT];
    }
    PlaceNext(f6, aux, o6, m6);
    assert FieldsWith(p, debug, n) == f6 + [aux];
  }

  /**
   * The static assertion holds on every supported platform, with DEBUG_COMPACT
   * on or off.
   */
  lemma CacheLinedOnSupportedPlatforms(c: Config)
    requires c.platform in SupportedPlatforms
    ensures PlatformOk(c.platform) && CacheLined(c)
  {
    if c.platform == LP64 {
      CacheLinedLP64(c.debugCompact);
    } else if c.platform == ILP32 {
      CacheLinedILP32(c.debugCompact);
    } else {
      CacheLinedI386(c.debugCompact);
    }
  }

  lemma CacheLinedLP64(debug: bool)
    ensures CacheLined(Config(LP64, debug))
  {
    if debug {
      CacheLinedLP64Debug();
    } else {
      CacheLinedLP64Release();
    }
  }

  lemma CacheLinedLP64Release()
    ensures PlatformOk(LP64) && ClassSerialLength(Config(LP64, false)) == 3
    ensures CallCacheSize(Config(LP64, false)) == 64 && CacheLined(Config(LP64, false))
  {
    ClassSerialFills(Config(LP64, false));
    CallCacheLaidOut(LP64, false, 3, 8, 32, 40, 48, 56, 56, 60, 8, 8, 8);
  }

  lemma CacheLinedLP64Debug()
    ensures PlatformOk(LP64) && ClassSerialLength(Config(LP64, true)) == 2
    ensures CallCacheSize(Config(LP64, true)) == 64 && CacheLined(Config(LP64, true))
  {
    ClassSerialFills(Config(LP64, true));
    CallCacheLaidOut(LP64, true, 2, 8, 24, 32, 40, 48, 56, 60, 8, 8, 8);
  }

  lemma CacheLinedILP32(debug: bool)
    ensures CacheLined(Config(ILP32, debug))
  {
    if debug {
      CacheLinedILP32Debug();
    } else {
      CacheLinedILP32Release();
    }
  }

  lemma CacheLinedILP32Release()
    ensures PlatformOk(ILP32) && ClassSerialLength(Config(ILP32, false)) == 5
    ensures CallCacheSize(Config(ILP32, false)) == 64 && CacheLined(Config(ILP32, false))
  {
    ClassSerialFills(Config(ILP32, false));
    CallCacheLaidOut(ILP32, false, 5, 8, 48, 52, 56, 60, 60, 64, 8, 8, 8);
  }

  lemma CacheLinedILP32Debug()
    ensures PlatformOk(ILP32) && ClassSerialLength(Config(ILP32, true)) == 4
    ensures CallCacheSize(Config(ILP32, true)) == 64 && CacheLined(Config(ILP32, true))
  {
    ClassSerialFills(Config(ILP32, true));
    CallCacheLaidOut(ILP32, true, 4, 8, 40, 44, 48, 52, 56, 60, 8, 8, 8);
  }

  lemma CacheLinedI386(debug: bool)
    ensures CacheLined(Config(I386, debug))
  {
    if debug {
      CacheLinedI386Debug();
    } else {
      CacheLinedI386Release();
    }
  }

  lemma CacheLinedI386Release()
    ensures PlatformOk(I386) && ClassSerialLength(Config(I386, false)) == 5
    ensures CallCacheSize(Config(I386, false)) == 64 && CacheLined(Config(I386, false))
  {
    ClassSerialFills(Config(I386, false));
    CallCacheLaidOut(I386, false, 5, 8, 48, 52, 56, 60, 60, 64, 4, 4, 4);
  }

  lemma CacheLinedI386Debug()
    ensures PlatformOk(I386) && ClassSerialLength(Config(I386, true)) == 4
    ensures CallCacheSize(Config(I386, true)) == 60 && CacheLined(Config(I386, true))
  {
    ClassSerialFills(Config(I386, true));
    CallCacheLaidOut(I386, true, 4, 8, 40, 44, 48, 52, 56, 60, 4, 4, 4);
  }
}
