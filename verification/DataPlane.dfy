/**
  The socket-connect hook: look the destination up in the service map, draw a slot, look the
  slot up in the backend map, rewrite the destination. Nothing locks the maps, so the two
  lookups may see two different states of the tables.
 */
module DataPlane {
  import opened Words
  import opened Services
  import opened Tables

  const SOCK_STREAM: U32 := 1
  const SOCK_DGRAM: U32 := 2

  /** The fields of the hook's context; address and port are in network byte order. */
  datatype Dest = Dest(kind: U32, address: U32, port: U32, protocol: U32)

  /** The key fields are 32, 16 and 8 bits wide, the context's fields all 32. */
  function KeyOf(dst: Dest): Frontend {
    Frontend(dst.address, dst.port % 0x1_0000, dst.protocol % 0x100)
  }

  /** A destination that hits the given frontend. */
  function DestFor(f: Frontend): (dst: Dest)
    ensures KeyOf(dst) == f
  {
    Dest(SOCK_STREAM, f.address, f.port, f.proto)
  }

  /** The drawn slot, a 16-bit word. */
  function PickSlot(draw: U32, count: U16): U16
    requires count > 0
  {
    (Remainder(draw, count) + 1) % 0x1_0000
  }

  /** What the hook finds when its lookups see `first` and `second`; `None` when it leaves the destination alone. */
  function Choose(first: Tables, second: Tables, dst: Dest, draw: U32): Option<Backend> {
    if dst.kind != SOCK_STREAM && dst.kind != SOCK_DGRAM then None
    else if KeyOf(dst) !in first.services then None
    else
      var entry := first.services[KeyOf(dst)];
      if entry.count == 0 then None
      else
        var key := BackendKey(entry.id, PickSlot(draw, entry.count));
        if key in second.backends then Some(second.backends[key]) else None
  }

  /** The hook's context, overwritten in place. */
  class SockAddr {
    const kind: U32
    const protocol: U32
    var userIp4: U32
    var userPort: U32

    constructor (dst: Dest)
      ensures View() == dst
    {
      kind, protocol, userIp4, userPort := dst.kind, dst.protocol, dst.address, dst.port;
    }

    function View(): Dest
      reads this
    {
      Dest(kind, userIp4, userPort, protocol)
    }

    /** `first` and `second` are what the maps hold at the two lookups, `draw` is the random word. */
    method Connect4(first: Tables, second: Tables, draw: U32) returns (ret: int)
      modifies this
      ensures ret == 1
      ensures var f := Frontend(old(userIp4), old(userPort) % 0x1_0000, protocol % 0x100);
              if (kind == 1 || kind == 2) && f in first.services && first.services[f].count > 0 &&
                 BackendKey(first.services[f].id, draw % first.services[f].count + 1) in second.backends
              then
                var b := second.backends[BackendKey(first.services[f].id, draw % first.services[f].count + 1)];
                userIp4 == b.address && userPort == b.port
              else
                userIp4 == old(userIp4) && userPort == old(userPort)
      ensures match Choose(first, second, old(View()), draw)
              case None => userIp4 == old(userIp4) && userPort == old(userPort)
              case Some(b) => userIp4 == b.address && userPort == b.port
    {
      ret := 1;
      if kind != SOCK_STREAM && kind != SOCK_DGRAM {
        return;
      }
      var key := Frontend(userIp4, userPort % 0x1_0000, protocol % 0x100);
      if key !in first.services {
        return;
      }
      var value := first.services[key];
      var count := value.count;
      if count == 0 {
        return;
      }
      RemainderIsMod(draw, count);
      var index: U16 := (draw % count + 1) % 0x1_0000;
      var backendId := BackendKey(value.id, index);
      if backendId !in second.backends {
        return;
      }
      var backend := second.backends[backendId];
      userIp4 := backend.address;
      userPort := backend.port;
    }
  }

  lemma PickSlotInRange(draw: U32, count: U16)
    requires count > 0
    ensures 1 <= PickSlot(draw, count) <= count
    ensures PickSlot(draw, count) - 1 == Remainder(draw, count)
  {
  }

  ghost function DrawsToSlot(count: U16, slot: U16): set<nat>
    requires count > 0
  {
    set d: nat | 0 <= d < 0x1_0000_0000 && PickSlot(d, count) == slot
  }

  /**
    Slot choice is balanced: of all 32-bit draws each slot from 1 to `count` receives the
    floor or the ceiling of an equal share, the lower slots the ceiling; no draw goes elsewhere.
   */
  lemma SlotsBalanced(count: U16, slot: U16)
    requires count > 0
    ensures 1 <= slot <= count ==>
              |DrawsToSlot(count, slot)| ==
              0x1_0000_0000 / count + (if slot <= 0x1_0000_0000 % count then 1 else 0)
    ensures !(1 <= slot <= count) ==> DrawsToSlot(count, slot) == {}
  {
    forall d: nat | 0 <= d < 0x1_0000_0000
      ensures 1 <= PickSlot(d, count) <= count && (PickSlot(d, count) == slot <==> Remainder(d, count) == slot - 1)
    {
      PickSlotInRange(d, count);
    }
    if 1 <= slot <= count {
      assert DrawsToSlot(count, slot) == DrawsFor(0x1_0000_0000, count, slot - 1);
      CountDraws(0x1_0000_0000, count, slot - 1);
    }
  }
}
