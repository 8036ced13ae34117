/**
 * The contents of `struct rb_call_cache`, `struct rb_call_info` and
 * `struct rb_call_data` (internal/vm.h), as values.
 */
module CallStructs {
  import opened Wrappers
  import opened RubyValues
  import opened MissingReasons
  import opened CallCacheLayout

  /**
   * The `aux` union, tagged with the member it was written through: the ivar
   * `index` (`unsigned int`) or `method_missing_reason`. The reason member has
   * the enum's integer type, so it holds any status word: one reason's code,
   * or several reasons OR-ed together.
   */
  datatype Aux = Index(index: bv32) | Reason(status: Word)

  /** Which member of the union a reader uses. */
  datatype AuxMember = IndexMember | ReasonMember

  function MemberOf(a: Aux): AuxMember {
    match a
    case Index(_) => IndexMember
    case Reason(_) => ReasonMember
  }

  /** The 32 bits the union's storage holds after `a` is written into it. */
  function AuxBits(a: Aux): bv32 {
    match a
    case Index(i) => i
    case Reason(w) => w
  }

  /** Reads the union's storage through one member: a value of that member with the stored bits. */
  function ReadAux(m: AuxMember, bits: bv32): (a: Aux)
    ensures MemberOf(a) == m && AuxBits(a) == bits
  {
    match m
    case IndexMember => Index(bits)
    case ReasonMember => Reason(bits)
  }

  /** Read through the member it was written with, `aux` gives back what was written. */
  lemma AuxRoundTrip(a: Aux)
    ensures ReadAux(MemberOf(a), AuxBits(a)) == a
  {
  }

  /** A single reason stored in `aux` is read back as that reason. */
  lemma AuxReasonRoundTrip(r: MissingReason)
    ensures FromCode(ReadAux(ReasonMember, AuxBits(Reason(Code(r)))).status) == Some(r)
  {
    CodeRoundTrip(r);
  }

  /**
   * Several reasons OR-ed into `aux` are read back as a status word that
   * tests positive for exactly those reasons.
   */
  lemma AuxReasonsRoundTrip(rs: seq<MissingReason>, r: MissingReason)
    requires r != NoEntry
    ensures Has(ReadAux(ReasonMember, AuxBits(Reason(Combine(rs)))).status, r) <==> r in rs
  {
    CombineHas(rs, r);
  }

  /**
   * The storage alone cannot say which member was written: every reason word
   * is also an ivar index. The tag is what keeps the two apart.
   */
  lemma AuxBitsAmbiguous(w: bv32)
    ensures AuxBits(Index(w)) == AuxBits(Reason(w))
    ensures Index(w) != Reason(w)
  {
  }

  /** `struct rb_call_info`: fixed when the call site is created. */
  datatype CallInfo = CallInfo(mid: Id, flag: bv32, origArgc: int)

  /**
   * `struct rb_call_cache`. `me` and `call` are pointers, modelled by their
   * address (0 is NULL); `compactCount` is present exactly under DEBUG_COMPACT.
   */
  datatype CallCache = CallCache(
    methodState: Serial,
    classSerial: seq<Serial>,
    me: nat,
    methodSerial: nat,
    call: nat,
    compactCount: Option<nat>,
    aux: Aux)

  /** `struct rb_call_data`. */
  datatype CallData = CallData(cc: CallCache, ci: CallInfo)

  /** `cc` has the shape the build `c` gives `struct rb_call_cache`. */
  predicate Shaped(c: Config, cc: CallCache)
    requires c.platform.serial.size >= 1
  {
    |cc.classSerial| == ClassSerialLength(c) && (cc.compactCount.Some? <==> c.debugCompact)
  }

  /**
   * A `static struct rb_call_data`: all bytes zero. Its `aux` reads as ivar
   * index 0 and, through the other member, as MISSING_NOENTRY.
   */
  function ZeroCallData(c: Config): (d: CallData)
    requires c.platform.serial.size >= 1
    ensures Shaped(c, d.cc)
    ensures d.cc.methodState == 0 && d.cc.me == 0 && d.cc.methodSerial == 0 && d.cc.call == 0
    ensures c.debugCompact ==> d.cc.compactCount == Some(0)
    ensures d.ci == CallInfo(0, 0, 0)
    ensures ReadAux(IndexMember, AuxBits(d.cc.aux)) == Index(0)
    ensures FromCode(ReadAux(ReasonMember, AuxBits(d.cc.aux)).status) == Some(NoEntry)
    ensures forall i :: 0 <= i < |d.cc.classSerial| ==> d.cc.classSerial[i] == 0
  {
    CallData(
      CallCache(0, seq(ClassSerialLength(c), _ => 0), 0, 0, 0, if c.debugCompact then Some(0) else None, Index(0)),
      CallInfo(0, 0, 0))
  }

  /**
   * `SET_COMPACT_COUNT(on)`: under DEBUG_COMPACT, `on.cc.compact_count` takes
   * the collector's current compaction count; otherwise the macro is empty.
   */
  function SetCompactCount(c: Config, d: CallData, count: nat): (d': CallData)
    requires c.platform.serial.size >= 1
    ensures Shaped(c, d.cc) ==> Shaped(c, d'.cc)
    ensures d'.ci == d.ci
    ensures d'.cc.(compactCount := d.cc.compactCount) == d.cc
    ensures c.debugCompact ==> d'.cc.compactCount == Some(count)
    ensures !c.debugCompact ==> d' == d
  {
    if c.debugCompact then d.(cc := d.cc.(compactCount := Some(count))) else d
  }
}
