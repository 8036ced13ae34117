/** The scalar types of Ruby's C API that the call-site cache stores. */
module RubyValues {

  /** `VALUE`, a pointer-sized reference to a Ruby object. */
  type Value = nat

  /** `ID`, a method name. */
  type Id = nat

  /** `rb_serial_t`: a cache-invalidation fingerprint. */
  type Serial = nat

  /** `Qfalse`; also the value of a zero-filled VALUE variable. */
  const Qfalse: Value := 0
}
