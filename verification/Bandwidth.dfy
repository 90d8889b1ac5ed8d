/** What a stream takes of a link, and how much of a link streams may take. */
module Bandwidth {

  /** Octets of a frame that the TSpec's frame size leaves out. */
  const OVERHEAD: nat := 42

  /** Bandwidth of one copy of a stream, in bit/s. */
  function CopyBps(maxFrameSize: nat, maxIntervalFrames: nat, classB: bool, overhead: nat): (bps: nat)
    ensures classB ==> bps == 32_000 * ((maxFrameSize + overhead) * maxIntervalFrames)
    ensures !classB ==> bps == 64_000 * ((maxFrameSize + overhead) * maxIntervalFrames)
  {
    (maxFrameSize + overhead) * maxIntervalFrames * (if classB then 4000 else 8000) * 8
  }

  /** Three quarters of the link, in bit/s. */
  function Budget(linkMbps: nat): (bps: nat)
    ensures bps == 750_000 * linkMbps
  {
    linkMbps * 1_000_000 * 3 / 4
  }
}
