/** src/utils/struct_server.c: what is known about a message server. */
module Servers {

  /** What `different_servers` compares; the name is not part of it. */
  datatype Identity = Identity(ip: string, udp: nat, tcp: nat)

  class Server {
    const name: string
    const ip: string
    const udp: nat
    const tcp: nat
    var connected: bool
    var fd: int

    constructor (name: string, ip: string, udp: nat, tcp: nat)
      ensures this.name == name && this.ip == ip && this.udp == udp && this.tcp == tcp
      ensures !connected && fd == -1
    {
      this.name, this.ip, this.udp, this.tcp := name, ip, udp, tcp;
      connected, fd := false, -1;
    }

    function Id(): Identity { Identity(ip, udp, tcp) }
  }

  /** A server as the registry describes it. */
  datatype Listed = Listed(name: string, ip: string, udp: nat, tcp: nat) {
    function Id(): Identity { Identity(ip, udp, tcp) }
  }

  predicate DifferentServers(a: Server, b: Server) { a.Id() != b.Id() }

  /** Servers differ exactly if they differ in address or in one of the ports. */
  lemma DifferentMeans(a: Server, b: Server)
    ensures DifferentServers(a, b) <==> a.ip != b.ip || a.udp != b.udp || a.tcp != b.tcp
  {
  }

  /** The identity keeps all that servers are told apart by, and nothing else. */
  lemma SameIdentity(a: Listed, b: Listed, s: Server)
    ensures a.Id() == b.Id() <==> a.ip == b.ip && a.udp == b.udp && a.tcp == b.tcp
    ensures a.Id() == s.Id() <==> a.ip == s.ip && a.udp == s.udp && a.tcp == s.tcp
  {
  }

  /** What a list of servers says, as the registry would. */
  function Describe(items: seq<Server>): (r: seq<Listed>)
    ensures |r| == |items|
    ensures forall i :: 0 <= i < |items| ==> r[i] == Listed(items[i].name, items[i].ip, items[i].udp, items[i].tcp)
  {
    seq(|items|, i requires 0 <= i < |items| => Listed(items[i].name, items[i].ip, items[i].udp, items[i].tcp))
  }

  lemma DescribeFirst(s: Server, items: seq<Server>)
    ensures Describe([s] + items) == [Listed(s.name, s.ip, s.udp, s.tcp)] + Describe(items)
  {
  }

  /** The identities of a list do not depend on any state. */
  function Ids(items: seq<Server>): (r: seq<Identity>)
    ensures |r| == |items| && forall i :: 0 <= i < |items| ==> r[i] == items[i].Id()
  {
    seq(|items|, i requires 0 <= i < |items| => items[i].Id())
  }

  ghost function Fds(items: seq<Server>): (r: seq<int>)
    reads items
    ensures |r| == |items| && forall i :: 0 <= i < |items| ==> r[i] == items[i].fd
  {
    seq(|items|, i requires 0 <= i < |items| reads items => items[i].fd)
  }

  lemma FdsChanged(items: seq<Server>, i: nat, before: seq<int>)
    requires i < |items| == |before|
    requires forall k :: 0 <= k < |items| && k != i ==> items[k].fd == before[k]
    ensures Fds(items) == before[i := items[i].fd]
  {
  }
}
