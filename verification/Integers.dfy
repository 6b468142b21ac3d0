/** The widths of the machine integers that the components work with. */
module Integers {
  const MAX_I32: int := 0x7fff_ffff
  const MAX_I64: int := 0x7fff_ffff_ffff_ffff
  const MAX_U64: nat := 0xffff_ffff_ffff_ffff
}
