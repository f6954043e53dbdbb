/** Vocabulary of the dataflow fabric: directions, colors and wavelets. */
module Wavelets {

  datatype Option<+T> = None | Some(value: T)

  // A 16-bit field of a 32-bit wavelet.
  type U16 = n: nat | n < 0x1_0000

  datatype Wavelet = Wavelet(data: U16, control: U16)

  // The five router ports.
  type Dir = d: nat | d < 5
  const RAMP: Dir := 0
  const EAST: Dir := 1
  const WEST: Dir := 2
  const NORTH: Dir := 3
  const SOUTH: Dir := 4

  // A transmit direction set; more than one element is a multicast.
  type DirMask = set<Dir>

  // A 5-bit virtual-channel tag: 32 encodable values, of which 24 are routable.
  type Color = c: nat | c < 32

  const NUM_DIRS: nat := 5
  const NUM_ROUTABLE: nat := 24
  const VC_DEPTH: nat := 4

  predicate Routable(c: Color) {
    c < NUM_ROUTABLE
  }

  // Models `static_cast<uint16_t>`.
  function ToU16(n: nat): U16 {
    n % 0x1_0000
  }
}
