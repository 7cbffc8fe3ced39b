/**
 * The two roles together: what a round of the root does when the leaf on
 * the other side answers its requests with the reply of udp-client.c.
 */
module System {
  import opened Net
  import Root
  import Leaf

  /** The leaf's reply to request number `k` (counting from 0) arrives during
      the wait after it, and nothing arrives before: the round sends exactly
      `k + 1` requests, all to that leaf, keeps the leaf and ends with the
      flag cleared. */
  lemma LeafAnswersRequest(s: Root.RootState, waits: seq<Root.Wait>, rand: nat, k: nat, raw: int)
    requires |waits| == Root.Attempts && s.ack == 0 && s.leaf != Zero && k < Root.Attempts
    requires forall j :: 0 <= j < k ==> waits[j].arrivals == []
    requires waits[k].arrivals == [Datagram(s.leaf, Leaf.ReplyText(raw))]
    ensures var r := Root.RoundSpec(s, waits, rand);
      r.sent == seq(k + 1, _ => Send(s.leaf, Req)) && r.state == Root.RootState(s.leaf, 0)
  {
    var r := Root.RoundSpec(s, waits, rand);
    Leaf.ReplyIsNotSyn(raw);
    assert Root.HasAck(waits[k].arrivals) by {
      assert waits[k].arrivals[0].payload != Syn;
    }
    assert Root.FirstAckWait(waits, 0) == k;
    assert forall j :: 0 <= j <= k ==> Root.NoSyn(waits[j].arrivals);
    Root.RoundSendCount(s, waits, rand);
    Root.RoundRequests(s, waits, rand);
    Root.RoundOutcome(s, waits, rand);
    forall i | 0 <= i <= k + 1
      ensures Root.LeafAfterWaits(s.leaf, waits[..i]) == s.leaf
    {
      Root.LeafAfterWaitsNoSyn(s.leaf, waits[..i]);
    }
  }
}
