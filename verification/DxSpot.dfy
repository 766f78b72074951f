/** The DX_SPOT record of src/dxcluster.h. */
module DxSpot {

  /** A spot: frequency, the two callsigns, mode, comment and the time it was received. */
  datatype Spot = Spot(freqHz: int, dxCall: string, spotter: string, mode: string, comment: string, when: int)

  function First(n: nat, spots: seq<Spot>): seq<Spot> {
    if |spots| <= n then spots else spots[..n]
  }
}
