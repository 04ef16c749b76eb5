/** The limits of the fixed-size integers in use. */
module GoInts {
  const MAX_INT32 := 0x7fff_ffff
  const MAX_INT64 := 0x7fff_ffff_ffff_ffff
}
