/** The filtering TUN device: it compacts a batch to the packets its policy accepts. */
module FilteredDevice {
  /** The accepted packets, in order. */
  function Accepted<P>(batch: seq<P>, accepts: P -> bool): (r: seq<P>)
    ensures |r| <= |batch|
  {
    if batch == [] then []
    else
      var n := |batch| - 1;
      Accepted(batch[..n], accepts) + if accepts(batch[n]) then [batch[n]] else []
  }

  lemma {:induction false} AcceptedMembers<P>(batch: seq<P>, accepts: P -> bool, p: P)
    ensures p in Accepted(batch, accepts) <==> p in batch && accepts(p)
  {
    if batch != [] {
      var n := |batch| - 1;
      assert batch == batch[..n] + [batch[n]];
      AcceptedMembers(batch[..n], accepts, p);
    }
  }

  /** Compacts the first `n` packets in place. Later slots keep what they had. */
  method Compact<P>(packets: array<P>, n: nat, accepts: P -> bool) returns (accepted: nat)
    requires n <= packets.Length
    modifies packets
    ensures accepted <= n
    ensures packets[..accepted] == Accepted(old(packets[..n]), accepts)
    ensures forall k :: n <= k < packets.Length ==> packets[k] == old(packets[k])
  {
    accepted := 0;
    ghost var batch := packets[..n];
    for i := 0 to n
      invariant accepted <= i
      invariant packets[..accepted] == Accepted(batch[..i], accepts)
      invariant forall k :: i <= k < packets.Length ==> packets[k] == old(packets[k])
    {
      assert batch[..i + 1][..i] == batch[..i] && batch[..i + 1][i] == packets[i];
      var p := packets[i];
      if !accepts(p) {
        continue;
      }
      if accepted != i {
        packets[accepted] := p;
      }
      accepted := accepted + 1;
    }
    assert batch[..n] == batch;
  }
}
