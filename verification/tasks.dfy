/** Task records (include/ggmk/types.h) and their flags (include/ggmk/error.h). */
module Tasks {
  import opened Words

  datatype Task = Task(
    kind: nat,
    flags: nat,
    tenant: nat,
    channel: nat,
    serial: nat,        // the `seq` field
    payload: nat,       // payload_ptr, 0 when absent
    payloadLen: nat,
    yieldCount: nat,
    meta0: nat,
    meta1: nat)

  const CHANNEL_MSG: nat := 0x20
  const PAYLOAD_RC_BIT: nat := 6

  function Priority(t: Task): (p: nat)
    ensures p <= 3
  {
    AndAtMost(t.flags, 3);
    And(t.flags, 3)
  }

  predicate HasRefcount(t: Task) {
    Bit(t.flags, PAYLOAD_RC_BIT) && t.payload != 0
  }

  /** Setting the channel-message flag changes neither the priority nor the refcount flag. */
  lemma ChannelFlagKeeps(t: Task, flags: nat)
    requires flags == Or(t.flags, CHANNEL_MSG)
    ensures Priority(t.(flags := flags)) == Priority(t)
    ensures HasRefcount(t.(flags := flags)) <==> HasRefcount(t)
  {
    assert Pow2(2) == 4 && Pow2(5) == CHANNEL_MSG;
    AndOnes(t.flags, 2);
    AndOnes(flags, 2);
    OrSplit(t.flags, CHANNEL_MSG, 2);
    BitOfOr(t.flags, CHANNEL_MSG, PAYLOAD_RC_BIT);
    BitOfPow2(5, PAYLOAD_RC_BIT);
  }

  /** A task up to its serial number, which every enqueue overwrites. */
  function Unserial(t: Task): Task {
    t.(serial := 0)
  }
}
