/** The mapping from a transport peer to the client id that the rest of the
    core uses as the actor id. */
module LiteNetLibUtil {
  import opened CSharpInt

  /** `peer.Id + 1` in unchecked C# int arithmetic; a peer is represented by its id. */
  function Peer2ClientId(peerId: int): (r: int)
    ensures IsInt32(r)
  {
    Wrap32(peerId + 1)
  }

  /** Distinct peers get distinct client ids. */
  lemma Peer2ClientIdInjective(p: int, q: int)
    requires IsInt32(p) && IsInt32(q) && p != q
    ensures Peer2ClientId(p) != Peer2ClientId(q)
  {
    if p == Int32Max {
      assert Peer2ClientId(p) == Int32Min;
    } else if q == Int32Max {
      assert Peer2ClientId(q) == Int32Min;
    }
  }

  /** A non-negative peer id below the int range's top gives a client id of at least 1: 0 is never used. */
  lemma Peer2ClientIdPositive(p: int)
    requires 0 <= p < Int32Max
    ensures Peer2ClientId(p) == p + 1 && Peer2ClientId(p) >= 1
  {
  }

  /** Subtracting 1 from the client id gives the peer id back. */
  lemma Peer2ClientIdInverse(p: int)
    requires IsInt32(p)
    ensures Wrap32(Peer2ClientId(p) - 1) == p
  {
    if p == Int32Max {
      assert Peer2ClientId(p) == Int32Min;
    }
  }
}
