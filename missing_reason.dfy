/**
 * `enum method_missing_reason` (internal/vm.h): why a method lookup failed.
 * The values are bit flags, so that several reasons can be OR-ed into one
 * status word and each tested on its own with `&`.
 */
module MissingReasons {
  import opened Wrappers

  /** The C enum is `int`-sized; its values are modelled as 32-bit words. */
  type Word = bv32

  datatype MissingReason =
    | NoEntry     // MISSING_NOENTRY
    | Private     // MISSING_PRIVATE
    | Protected   // MISSING_PROTECTED
    | FCall       // MISSING_FCALL
    | VCall       // MISSING_VCALL
    | Super       // MISSING_SUPER
    | Missing     // MISSING_MISSING
    | NotMissing  // MISSING_NONE

  /** The numeric value the enum gives each reason. */
  function Code(r: MissingReason): (c: Word)
    ensures r == NoEntry <==> c == 0
  {
    match r
    case NoEntry => 0x00
    case Private => 0x01
    case Protected => 0x02
    case FCall => 0x04
    case VCall => 0x08
    case Super => 0x10
    case Missing => 0x20
    case NotMissing => 0x40
  }

  /** Reads a status word back as a single reason, if it is exactly one code. */
  function FromCode(c: Word): (r: Option<MissingReason>)
    ensures r.Some? ==> Code(r.value) == c
  {
    if c == 0x00 then Some(NoEntry)
    else if c == 0x01 then Some(Private)
    else if c == 0x02 then Some(Protected)
    else if c == 0x04 then Some(FCall)
    else if c == 0x08 then Some(VCall)
    else if c == 0x10 then Some(Super)
    else if c == 0x20 then Some(Missing)
    else if c == 0x40 then Some(NotMissing)
    else None
  }

  /** Every reason survives the trip through its code, so no two reasons share a code. */
  lemma CodeRoundTrip(r: MissingReason)
    ensures FromCode(Code(r)) == Some(r)
  {
  }

  lemma CodesDistinct(a: MissingReason, b: MissingReason)
    ensures Code(a) == Code(b) ==> a == b
  {
    CodeRoundTrip(a);
    CodeRoundTrip(b);
  }

  predicate IsSingleBit(c: Word) {
    c != 0 && c & (c - 1) == 0
  }

  /** Every code but MISSING_NOENTRY is one bit, and distinct codes share no bit. */
  lemma CodesAreFlags(a: MissingReason, b: MissingReason)
    ensures a != NoEntry ==> IsSingleBit(Code(a))
    ensures a != b ==> Code(a) & Code(b) == 0
  {
  }

  /**
   * The status word holding every reason of `rs`, OR-ed together. It uses no
   * bit outside the seven the enum defines.
   */
  function Combine(rs: seq<MissingReason>): (status: Word)
    ensures status & 0xFFFF_FF80 == 0
  {
    if rs == [] then 0 else Combine(rs[..|rs| - 1]) | Code(rs[|rs| - 1])
  }

  /** `(status & reason)`, the test the VM applies to a combined status word. */
  predicate Has(status: Word, r: MissingReason) {
    status & Code(r) != 0
  }

  /** Since every code is at most one bit, the test finds a reason exactly when its whole flag is set. */
  lemma HasMeansFlagSet(status: Word, r: MissingReason)
    ensures Has(status, r) <==> r != NoEntry && status & Code(r) == Code(r)
  {
    if r != NoEntry {
      CodesAreFlags(r, r);
      SingleBitTest(status, Code(r));
    }
  }

  lemma SingleBitTest(status: Word, c: Word)
    requires IsSingleBit(c)
    ensures status & c != 0 <==> status & c == c
  {
  }

  /** OR-ing in a word that shares no bit with `c` leaves the test for `c` as it was. */
  lemma OrDisjoint(status: Word, d: Word, c: Word)
    requires d & c == 0
    ensures (status | d) & c == status & c
  {
  }

  /** OR-ing in `c` itself makes the test for `c` succeed. */
  lemma OrSelf(status: Word, c: Word)
    requires c != 0
    ensures (status | c) & c == c
  {
  }

  /** OR-ing a reason into a word makes the test find it. */
  lemma HasOrSame(status: Word, r: MissingReason)
    requires r != NoEntry
    ensures Has(status | Code(r), r)
  {
    OrSelf(status, Code(r));
  }

  /** OR-ing a reason into a word leaves the test for any reason sharing no bit with it as it was. */
  lemma HasOrDisjoint(status: Word, x: MissingReason, r: MissingReason)
    requires Code(x) & Code(r) == 0
    ensures Has(status | Code(x), r) == Has(status, r)
  {
    OrDisjoint(status, Code(x), Code(r));
  }

  lemma HasOr(status: Word, x: MissingReason, r: MissingReason)
    requires r != NoEntry
    ensures Has(status | Code(x), r) <==> Has(status, r) || x == r
  {
    if x == r {
      HasOrSame(status, r);
    } else {
      CodesAreFlags(x, r);
      HasOrDisjoint(status, x, r);
    }
  }

  /** Testing a combined word for a reason finds exactly the reasons OR-ed in. */
  lemma {:induction false} CombineHas(rs: seq<MissingReason>, r: MissingReason)
    requires r != NoEntry
    ensures Has(Combine(rs), r) <==> r in rs
  {
    if rs != [] {
      var init, last := rs[..|rs| - 1], rs[|rs| - 1];
      assert rs == init + [last];
      CombineHas(init, r);
      HasOr(Combine(init), last, r);
    }
  }

  /** MISSING_NOENTRY contributes no bit: it can never be tested for. */
  lemma NoEntryUntestable(status: Word)
    ensures !Has(status, NoEntry)
  {
  }
}
