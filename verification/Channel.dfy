/** The buffered channel on which a coordinator collects acknowledgements. */
module Channel {
  import opened Basics
  import AckLoop

  /** One follower's reply. */
  datatype Ack = Ack(node: nat, ok: bool)

  function Oks(acks: seq<Ack>): (oks: seq<bool>)
    ensures |oks| == |acks|
  {
    seq(|acks|, i requires 0 <= i < |acks| => acks[i].ok)
  }

  /** Each node replies at most once. */
  ghost predicate OneReplyEach(acks: seq<Ack>) {
    forall a, b :: 0 <= a < b < |acks| ==> acks[a].node != acks[b].node
  }

  lemma RepliersCounted(acks: seq<Ack>) returns (nodes: set<nat>)
    requires OneReplyEach(acks)
    ensures |nodes| == |acks|
    ensures forall n :: n in nodes <==> exists x :: 0 <= x < |acks| && acks[x].node == n
  {
    var repliers: seq<nat> := seq(|acks|, x requires 0 <= x < |acks| => acks[x].node);
    DistinctCounted(repliers);
    nodes := Members(repliers);
    forall x | 0 <= x < |acks|
      ensures acks[x].node in nodes
    {
      assert repliers[x] == acks[x].node;
    }
  }

  /** The followers that acknowledged positively are as many as the count says. */
  lemma {:induction false} AckersCounted(acks: seq<Ack>) returns (nodes: set<nat>)
    requires OneReplyEach(acks)
    ensures |nodes| == AckLoop.Acks(Oks(acks))
    ensures forall n :: n in nodes ==> Ack(n, true) in acks
  {
    if acks == [] {
      nodes := {};
    } else {
      var init, last := acks[..|acks| - 1], acks[|acks| - 1];
      assert Oks(acks)[..|init|] == Oks(init);
      nodes := AckersCounted(init);
      assert forall a :: a in init ==> a in acks;
      if last.ok {
        forall a | 0 <= a < |init|
          ensures init[a].node != last.node
        {
          assert acks[a].node != acks[|init|].node;
        }
        nodes := nodes + {last.node};
      }
    }
  }
}
