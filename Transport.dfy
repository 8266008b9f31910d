/**
 * The responder side of the Modbus transport library, seen from the bridge:
 * the register image it serves to the supervisory host and the ledger of
 * writes the host made to that image. The library itself (framing, request
 * processing) is not part of this model; only the two operations the bridge
 * calls are, with the behaviour the bridge relies on.
 */
module Transport {
  import opened Registers

  /** The responder handle that serves the supervisory host (the source's `client` attribute). */
  class Responder {
    /** Writes received from the host and not yet confirmed as pushed to the field device. */
    var changed: Ledger
    /** The register values served to the host. */
    var image: Image

    constructor (changed: Ledger, image: Image)
      ensures this.changed == changed && this.image == image
    {
      this.changed := changed;
      this.image := image;
    }

    /**
     * Compare-and-delete of one ledger entry: it is removed only if it still
     * carries timestamp `ts`; otherwise the call fails and nothing changes.
     */
    method RemoveChangedRegister(c: RegClass, a: int, ts: int) returns (removed: bool)
      modifies this
      ensures removed <==> c in old(changed) && a in old(changed)[c] && old(changed)[c][a].time == ts
      ensures changed == RemoveIfCurrent(old(changed), c, a, ts)
      ensures image == old(image)
    {
      removed := c in changed && a in changed[c] && changed[c][a].time == ts;
      if removed {
        changed := changed[c := changed[c] - {a}];
      }
    }

    /** Sets (or adds) the served value of address `a` of class `c`; the ledger is not touched. */
    method SetRegister(c: RegClass, a: int, v: Val)
      modifies this
      ensures image == old(image)[(c, a) := v]
      ensures changed == old(changed)
    {
      image := image[(c, a) := v];
    }
  }
}
