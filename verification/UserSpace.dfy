/** The addresses that user programs may use. */
module UserSpace {
  const USER_VA_END: nat := 0x4000_0000
}
