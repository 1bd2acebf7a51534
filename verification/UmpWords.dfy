/** Control words of the UMP channel: a 32-bit word holding epoch bit, 16-bit index and 15-bit tag. */
module UmpWords {

  const INDEX_RANGE: nat := 0x1_0000
  const TAG_RANGE: nat := 0x8000
  const ACK_TAG: nat := 0x7FFF
  const PAYLOAD_WORDS: nat := 7

  /** header = tag << 16 | index, then the epoch in the lowest bit of the 32-bit word. */
  function Pack(tag: nat, index: nat, epoch: bool): nat {
    2 * (tag * INDEX_RANGE + index) + if epoch then 1 else 0
  }

  predicate EpochOf(raw: nat) {
    raw % 2 == 1
  }

  function IndexOf(raw: nat): nat {
    raw / 2 % INDEX_RANGE
  }

  function TagOf(raw: nat): nat {
    raw / 2 / INDEX_RANGE
  }

  /** What the sender packs is what the receiver unpacks, and the word fits 32 bits. */
  lemma PackRoundTrip(tag: nat, index: nat, epoch: bool)
    requires tag < TAG_RANGE && index < INDEX_RANGE
    ensures var raw := Pack(tag, index, epoch);
            raw < 0x1_0000_0000 && TagOf(raw) == tag && IndexOf(raw) == index && EpochOf(raw) == epoch
  {
    var raw := Pack(tag, index, epoch);
    assert raw / 2 == tag * INDEX_RANGE + index;
  }

  /** 16-bit index arithmetic: increment and truncating subtraction. */
  function Wrap(k: int): (r: nat)
    ensures r < INDEX_RANGE
  {
    k % INDEX_RANGE
  }

  lemma WrapStep(k: nat)
    ensures Wrap(Wrap(k) + 1) == Wrap(k + 1)
  {
  }

  /** The send test: the sequence number of the next message minus the last one acknowledged, in 16 bits. */
  predicate CanSendTest(nextId: nat, ackId: nat, bufmsgs: nat) {
    Wrap(nextId - ackId) <= bufmsgs
  }

  /** The wrapped test decides exactly whether a slot is free, for every legal ring size up to 65534. */
  lemma CanSendIsExact(sent: nat, acked: nat, bufmsgs: nat)
    requires bufmsgs <= 65534 && acked <= sent <= acked + bufmsgs
    ensures CanSendTest(Wrap(sent + 1), Wrap(acked), bufmsgs) <==> sent - acked < bufmsgs
  {
    WrapDifference(sent + 1, acked);
  }

  /** Subtracting wrapped counts gives their difference, if that fits 16 bits. */
  lemma WrapDifference(a: nat, b: nat)
    requires b <= a < b + INDEX_RANGE
    ensures Wrap(Wrap(a) - Wrap(b)) == a - b
  {
    WrapIs(a, a / INDEX_RANGE, Wrap(a));
    WrapIs(b, b / INDEX_RANGE, Wrap(b));
    WrapIs(Wrap(a) - Wrap(b), b / INDEX_RANGE - a / INDEX_RANGE, a - b) by {
      assert a == INDEX_RANGE * (a / INDEX_RANGE) + Wrap(a);
      assert b == INDEX_RANGE * (b / INDEX_RANGE) + Wrap(b);
    }
  }

  lemma WrapIs(k: int, q: int, r: nat)
    requires k == INDEX_RANGE * q + r && r < INDEX_RANGE
    ensures Wrap(k) == r
  {
  }

  /** At 65535 slots, which initialisation accepts, the test never refuses. */
  lemma CanSendAlwaysAtFullRange(nextId: nat, ackId: nat)
    ensures CanSendTest(nextId, ackId, 65535)
  {
  }
}
