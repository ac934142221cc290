/** Numbers both servers share: the buffer size of pkg/constants/constants.go and the address types of section 5 of
    RFC 1928. */
module Constants {
  import opened Bytes

  const BLOCK_SIZE := 1500

  const IPV4: byte := 1
  const DOMAIN: byte := 3
}
