/** The guard in front of the forwarder: a port is forwarded at most once per protocol, and only when
no program listens on it. */
module Guard {
  import opened Encoding
  import opened PortDiff

  datatype Reply = Done | AlreadyForwarded | InUse | NotForwarded | Failure

  /** What reading the host's socket tables says about a port. */
  datatype Check = Free | Busy | Unreadable

  datatype Listen = Listen(protocol: Protocol, port: uint16)

  predicate Checked(p: Protocol) {
    p == TCP || p == UDP
  }

  /** How the guard answers an addition: `works` tells whether the underlying forwarder succeeds. */
  function AddReply(held: set<Listen>, l: Listen, check: Check, works: bool): Reply {
    if l in held then AlreadyForwarded
    else if !Checked(l.protocol) || check == Unreadable then Failure
    else if check == Busy then InUse
    else if works then Done
    else Failure
  }

  function RemoveReply(held: set<Listen>, l: Listen, works: bool): Reply {
    if l !in held then NotForwarded else if works then Done else Failure
  }

  class GuardPortForwarding {
    var listens: map<Protocol, set<uint16>>

    ghost predicate Valid()
      reads this
    {
      listens.Keys == {TCP, UDP}
    }

    /** What is held, protocol and port together. */
    ghost function Held(): (held: set<Listen>)
      requires Valid()
      reads this
      ensures forall l :: l in held <==> Checked(l.protocol) && l.port in listens[l.protocol]
    {
      (set n | n in listens[TCP] :: Listen(TCP, n)) + (set n | n in listens[UDP] :: Listen(UDP, n))
    }

    constructor ()
      ensures Valid() && Held() == {}
    {
      listens := map[TCP := {}, UDP := {}];
    }

    method AddForwarding(proto: Protocol, from: uint16, check: Check, works: bool) returns (reply: Reply)
      requires Valid()
      modifies this
      ensures Valid() && reply == AddReply(old(Held()), Listen(proto, from), check, works)
      ensures reply == AlreadyForwarded <==> Listen(proto, from) in old(Held())
      ensures reply == Done <==> Listen(proto, from) !in old(Held()) && (proto == TCP || proto == UDP) && check == Free && works
      ensures reply == InUse <==> Listen(proto, from) !in old(Held()) && (proto == TCP || proto == UDP) && check == Busy
      ensures Held() == if reply == Done then old(Held()) + {Listen(proto, from)} else old(Held())
    {
      if proto in listens && from in listens[proto] {
        return AlreadyForwarded;
      }
      if proto !in listens || check == Unreadable {
        return Failure;
      }
      if check == Busy {
        return InUse;
      }
      if !works {
        return Failure;
      }
      listens := listens[proto := listens[proto] + {from}];
      assert Held() == old(Held()) + {Listen(proto, from)};
      return Done;
    }

    method RemoveForwarding(proto: Protocol, from: uint16, works: bool) returns (reply: Reply)
      requires Valid()
      modifies this
      ensures Valid() && reply == RemoveReply(old(Held()), Listen(proto, from), works)
      ensures reply == NotForwarded <==> Listen(proto, from) !in old(Held())
      ensures reply == Done <==> Listen(proto, from) in old(Held()) && works
      ensures Held() == if reply == Done then old(Held()) - {Listen(proto, from)} else old(Held())
    {
      if proto !in listens || from !in listens[proto] {
        return NotForwarded;
      }
      if !works {
        return Failure;
      }
      listens := listens[proto := listens[proto] - {from}];
      assert Held() == old(Held()) - {Listen(proto, from)};
      return Done;
    }
  }
}
