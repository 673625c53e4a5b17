/** The shared memory of the terminal limiter and what one packet or one ARP
    frame does to it when nothing else runs in between. */
module Maclimit {

  // A MAC address is six bytes compared with memcmp, so a 48-bit number.
  type Mac = n: int | 0 <= n < 0x1_0000_0000_0000
  type Ip = n: int | 0 <= n < 0x1_0000_0000

  datatype Node = Node(dev: nat, mac: Mac, srcip: Ip, dstip: Ip)

  datatype AddMode = NoAddTask | AddImmediate | AddCheck | ArpReplayCheck | ArpReplayOk

  /** An IPv4 packet as the packet hook sees it: the sender's addresses and
      ingress device, whether it is UDP, and whether it came in on br0. */
  datatype Packet = Packet(terminal: Node, udp: bool, br0: bool)

  datatype Verdict = Accept | Drop

  /** `new_terminal`, `maclimit_list` and `maclimit_cfg`. The list is in link
      order: `list_add` puts a node in front. */
  datatype Shared = Shared(flag: AddMode, node: Node, arpCmpMac: Mac,
                           list: seq<Node>, enable: int, limit: int)

  const CHECK_ARP_PACKET_NUM: nat := 5
  const ZERO_NODE := Node(0, 0, 0, 0)
  const INITIAL := Shared(NoAddTask, ZERO_NODE, 0, [], 0, 1)

  predicate Listed(list: seq<Node>, mac: Mac) {
    exists k :: 0 <= k < |list| && list[k].mac == mac
  }

  predicate DistinctMacs(list: seq<Node>) {
    forall j, k :: 0 <= j < k < |list| ==> list[j].mac != list[k].mac
  }

  predicate AddRequest(flag: AddMode) {
    flag == AddImmediate || flag == AddCheck
  }

  predicate Limited(sh: Shared, p: Packet) {
    sh.enable != 0 && !p.udp && p.br0
  }

  /** `send_add_opt_to_thread`, up to the wake-up. */
  function Post(sh: Shared, terminal: Node, mode: AddMode): Shared {
    if sh.flag == NoAddTask then sh.(node := terminal, flag := mode) else sh
  }

  /** The request a packet from an unlisted terminal makes. */
  function Mode(connected: nat, limit: int): AddMode {
    if connected < limit then AddImmediate else AddCheck
  }

  /** `net_hook_func` run without interruption; `lock` is what `read_trylock` returned. */
  function NetHook(sh: Shared, p: Packet, lock: bool): (Shared, Verdict) {
    if !Limited(sh, p) || !lock || Listed(sh.list, p.terminal.mac) then (sh, Accept)
    else (Post(sh, p.terminal, Mode(|sh.list|, sh.limit)),
          if |sh.list| < sh.limit then Accept else Drop)
  }

  /** `arpin_hook_func` run without interruption, for a frame sent by `mac`. */
  function ArpIn(sh: Shared, mac: Mac): Shared {
    if sh.flag == ArpReplayCheck && sh.arpCmpMac == mac then sh.(flag := ArpReplayOk) else sh
  }
}
