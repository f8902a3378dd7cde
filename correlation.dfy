/**
 * The controller's receive loops (cmd/discover_gui/main.go): `discover`, `queryNetParams`,
 * `sendCfgAndWaitAck` and `sendRestartAndWaitAck`. The datagrams that reach the socket
 * before its deadline are a finite sequence; running out of them is the deadline, which
 * ends `discover` and makes the three waits fail.
 */
module Correlation {
  import opened Wrappers
  import opened Text
  import opened ControllerCodec

  /** A received datagram: the text of the sender's address and the payload. */
  datatype Datagram = Datagram(from: string, payload: string)

  /** Every loop trims the payload before it looks at it. */
  function Reply(d: Datagram): string {
    TrimSpace(d.payload)
  }

  // Waiting for one reply.

  /** The reply each of the three waits is for. */
  datatype Awaited = NetParams | CfgAckReply | RestartAckReply

  /** A datagram ends a wait when it comes from the target host and its upper-cased reply
      starts with `NET` (`queryNetParams`), starts with `CFG_ACK` (`sendCfgAndWaitAck`), or
      holds `RESTART_ACK` anywhere (`sendRestartAndWaitAck`). */
  predicate Answers(d: Datagram, ip: string, w: Awaited) {
    AddrIP(d.from) == ip
    && var up := ToUpper(Reply(d));
    match w
    case NetParams => HasPrefix(up, "NET")
    case CfgAckReply => HasPrefix(up, "CFG_ACK")
    case RestartAckReply => Contains(up, "RESTART_ACK")
  }

  /** The index of the first datagram from `lo` on that ends the wait. */
  function FirstAnswer(ds: seq<Datagram>, ip: string, w: Awaited, lo: nat): (r: Option<nat>)
    requires lo <= |ds|
    ensures r.Some? ==> lo <= r.value < |ds| && Answers(ds[r.value], ip, w)
    ensures forall j :: lo <= j < (if r.Some? then r.value else |ds|) ==> !Answers(ds[j], ip, w)
    decreases |ds| - lo
  {
    if lo == |ds| then None
    else if Answers(ds[lo], ip, w) then Some(lo)
    else FirstAnswer(ds, ip, w, lo + 1)
  }

  /** The four prefixes `queryNetParams` tries all start with `NET`, the last of them. */
  lemma NetPrefixes(up: string)
    ensures (HasPrefix(up, "NET|") || HasPrefix(up, "NET_IF|") || HasPrefix(up, "NET ") || HasPrefix(up, "NET"))
      == HasPrefix(up, "NET")
  {
    if HasPrefix(up, "NET|") {
      assert "NET|" == "NET" + "|";
      PrefixOfLonger(up, "NET", "|");
    }
    if HasPrefix(up, "NET_IF|") {
      assert "NET_IF|" == "NET" + "_IF|";
      PrefixOfLonger(up, "NET", "_IF|");
    }
    if HasPrefix(up, "NET ") {
      assert "NET " == "NET" + " ";
      PrefixOfLonger(up, "NET", " ");
    }
  }

  /** `queryNetParams`: the parameters in the first `NET` reply from the target host; None
      when the deadline comes first. */
  method QueryNetParams(ip: string, replies: seq<Datagram>) returns (r: Option<NetResponse>)
    ensures match FirstAnswer(replies, ip, NetParams, 0)
      case None => r == None
      case Some(i) => r == Some(NetResponseOf(Reply(replies[i])))
  {
    var i := 0;
    while i < |replies|
      invariant 0 <= i <= |replies|
      invariant FirstAnswer(replies, ip, NetParams, 0) == FirstAnswer(replies, ip, NetParams, i)
    {
      var d := replies[i];
      var msg := TrimSpace(d.payload);
      if AddrIP(d.from) == ip {
        var upper := ToUpper(msg);
        NetPrefixes(upper);
        if HasPrefix(upper, "NET|") || HasPrefix(upper, "NET_IF|") || HasPrefix(upper, "NET ") || HasPrefix(upper, "NET") {
          var n := ParseNetResponse(msg);
          return Some(n);
        }
      }
      i := i + 1;
    }
    return None;
  }

  /** `sendCfgAndWaitAck`: the first `CFG_ACK` reply from the target host, trimmed; None when
      the deadline comes first. */
  method SendCfgAndWaitAck(ip: string, replies: seq<Datagram>) returns (r: Option<string>)
    ensures match FirstAnswer(replies, ip, CfgAckReply, 0)
      case None => r == None
      case Some(i) => r == Some(Reply(replies[i]))
  {
    var i := 0;
    while i < |replies|
      invariant 0 <= i <= |replies|
      invariant FirstAnswer(replies, ip, CfgAckReply, 0) == FirstAnswer(replies, ip, CfgAckReply, i)
    {
      var d := replies[i];
      if AddrIP(d.from) == ip {
        var msg := TrimSpace(d.payload);
        if HasPrefix(ToUpper(msg), "CFG_ACK") {
          return Some(msg);
        }
      }
      i := i + 1;
    }
    return None;
  }

  /** `sendRestartAndWaitAck`: the first reply from the target host holding `RESTART_ACK`,
      trimmed; None when the deadline comes first. Its second test, a `CFG_ACK` reply holding
      `RESTART_ACK`, is already covered by the first. */
  method SendRestartAndWaitAck(ip: string, replies: seq<Datagram>) returns (r: Option<string>)
    ensures match FirstAnswer(replies, ip, RestartAckReply, 0)
      case None => r == None
      case Some(i) => r == Some(Reply(replies[i]))
  {
    var i := 0;
    while i < |replies|
      invariant 0 <= i <= |replies|
      invariant FirstAnswer(replies, ip, RestartAckReply, 0) == FirstAnswer(replies, ip, RestartAckReply, i)
    {
      var d := replies[i];
      if AddrIP(d.from) == ip {
        var msg := TrimSpace(d.payload);
        var up := ToUpper(msg);
        if Contains(up, "RESTART_ACK") {
          return Some(msg);
        }
        if HasPrefix(up, "CFG_ACK") && Contains(up, "RESTART_ACK") {
          return Some(msg);
        }
      }
      i := i + 1;
    }
    return None;
  }

  /** A datagram from another host never ends a wait, whatever it says. */
  lemma OtherHostIgnored(ds: seq<Datagram>, ip: string, w: Awaited, i: nat)
    requires i < |ds| && AddrIP(ds[i].from) != ip
    ensures FirstAnswer(ds, ip, w, 0) != Some(i)
  {
  }

  // Discovery.

  /** `discover` keeps a reply whose upper-cased trimmed text starts with `TF|`. */
  predicate IsDiscoveryReply(d: Datagram) {
    HasPrefix(ToUpper(Reply(d)), "TF|")
  }

  /** The device a kept reply describes. */
  function Discovered(d: Datagram): Device {
    DeviceOf(d.from, Reply(d))
  }

  /** The map a receive loop builds when it records `dev(d)` under the sender of each
      datagram `d` that `keep` accepts, a later one over an earlier one. */
  function Collect(ds: seq<Datagram>, keep: Datagram -> bool, dev: Datagram -> Device): map<string, Device>
    decreases |ds|
  {
    if ds == [] then map[]
    else
      var d := ds[|ds| - 1];
      var prev := Collect(ds[..|ds| - 1], keep, dev);
      if keep(d) then prev[d.from := dev(d)] else prev
  }

  /** The senders of the datagrams `keep` accepts. */
  function SendersWhere(ds: seq<Datagram>, keep: Datagram -> bool): set<string> {
    set i | 0 <= i < |ds| && keep(ds[i]) :: ds[i].from
  }

  /** One more datagram adds its sender when it is accepted, and nobody otherwise. */
  lemma SendersAppend(ds: seq<Datagram>, keep: Datagram -> bool)
    requires ds != []
    ensures var n := |ds| - 1;
      SendersWhere(ds, keep) == if keep(ds[n]) then SendersWhere(ds[..n], keep) + {ds[n].from} else SendersWhere(ds[..n], keep)
  {
    var n := |ds| - 1;
    var init := ds[..n];
    assert forall i :: 0 <= i < n ==> init[i] == ds[i];
    forall x | x in SendersWhere(ds, keep)
      ensures x in SendersWhere(init, keep) || (keep(ds[n]) && x == ds[n].from)
    {
      var i :| 0 <= i < |ds| && keep(ds[i]) && ds[i].from == x;
      if i < n {
        assert init[i] == ds[i];
      }
    }
  }

  /** The map has one key per sender of an accepted datagram, and no other. */
  lemma {:induction false} CollectKeys(ds: seq<Datagram>, keep: Datagram -> bool, dev: Datagram -> Device)
    ensures Collect(ds, keep, dev).Keys == SendersWhere(ds, keep)
    ensures |Collect(ds, keep, dev)| == |SendersWhere(ds, keep)|
    decreases |ds|
  {
    if ds != [] {
      CollectKeys(ds[..|ds| - 1], keep, dev);
      SendersAppend(ds, keep);
    }
  }

  /** The value under a sender comes from its last accepted datagram. */
  lemma {:induction false} CollectLast(ds: seq<Datagram>, keep: Datagram -> bool, dev: Datagram -> Device, i: nat)
    requires i < |ds| && keep(ds[i])
    requires forall j :: i < j < |ds| && ds[j].from == ds[i].from ==> !keep(ds[j])
    ensures ds[i].from in Collect(ds, keep, dev)
    ensures Collect(ds, keep, dev)[ds[i].from] == dev(ds[i])
    decreases |ds|
  {
    var n := |ds| - 1;
    if i < n {
      var init := ds[..n];
      assert init[i] == ds[i];
      assert forall j :: i < j < n ==> init[j] == ds[j];
      CollectLast(init, keep, dev, i);
    }
  }

  /** The devices `discover` has found after the datagrams `ds`, by sender address. */
  function Found(ds: seq<Datagram>): map<string, Device> {
    Collect(ds, IsDiscoveryReply, Discovered)
  }

  /** The senders of the kept replies. */
  function Senders(ds: seq<Datagram>): set<string> {
    SendersWhere(ds, IsDiscoveryReply)
  }

  /** One device per sender of a kept reply, and none for anyone else; so as many devices
      as distinct senders. */
  lemma FoundKeys(ds: seq<Datagram>)
    ensures Found(ds).Keys == Senders(ds)
    ensures |Found(ds)| == |Senders(ds)|
  {
    CollectKeys(ds, IsDiscoveryReply, Discovered);
  }

  /** The device recorded for a sender is the one its last kept reply describes. */
  lemma FoundLast(ds: seq<Datagram>, i: nat)
    requires i < |ds| && IsDiscoveryReply(ds[i])
    requires forall j :: i < j < |ds| && ds[j].from == ds[i].from ==> !IsDiscoveryReply(ds[j])
    ensures ds[i].from in Found(ds)
    ensures Found(ds)[ds[i].from] == DeviceOf(ds[i].from, Reply(ds[i]))
  {
    CollectLast(ds, IsDiscoveryReply, Discovered, i);
  }

  /** The receive loop of `discover`: record each kept reply under its sender until the
      deadline. */
  method CollectReplies(replies: seq<Datagram>) returns (found: map<string, Device>)
    ensures found == Found(replies)
  {
    found := map[];
    var i := 0;
    while i < |replies|
      invariant 0 <= i <= |replies|
      invariant found == Found(replies[..i])
    {
      assert replies[..i + 1][..i] == replies[..i];
      var msg := TrimSpace(replies[i].payload);
      if HasPrefix(ToUpper(msg), "TF|") {
        var d := ParseDiscovery(replies[i].from, msg);
        var key := replies[i].from;
        found := found[key := d];
      }
      i := i + 1;
    }
    assert replies[..i] == replies;
  }

  /** The copy of the map into a slice, in whatever order the map is walked: each device
      once, under a key of its own. */
  method Devices(found: map<string, Device>) returns (out: seq<Device>, ghost keys: seq<string>)
    ensures |out| == |keys| == |found|
    ensures forall i, j :: 0 <= i < j < |keys| ==> keys[i] != keys[j]
    ensures forall i :: 0 <= i < |keys| ==> keys[i] in found && out[i] == found[keys[i]]
    ensures forall k :: k in found ==> k in keys
  {
    out, keys := [], [];
    var rest := found.Keys;
    while rest != {}
      invariant rest <= found.Keys
      invariant |keys| == |out| && |keys| + |rest| == |found.Keys|
      invariant forall i, j :: 0 <= i < j < |keys| ==> keys[i] != keys[j]
      invariant forall i :: 0 <= i < |keys| ==> keys[i] in found && keys[i] !in rest && out[i] == found[keys[i]]
      invariant forall k :: k in found ==> k in keys || k in rest
      decreases |rest|
    {
      var k :| k in rest;
      out, keys := out + [found[k]], keys + [k];
      rest := rest - {k};
    }
  }

  /** `discover`: the broadcast goes to `parsePort(port, 60000)`; the result holds one
      device per sender of a kept reply, from that sender's last one. */
  method Discover(port: string, replies: seq<Datagram>) returns (dest: int, out: seq<Device>, ghost keys: seq<string>)
    ensures dest == ParsePort(port, 60000)
    ensures |out| == |keys| == |Senders(replies)|
    ensures forall i, j :: 0 <= i < j < |keys| ==> keys[i] != keys[j]
    ensures forall i :: 0 <= i < |keys| ==> keys[i] in Found(replies) && out[i] == Found(replies)[keys[i]]
    ensures forall k :: k in keys <==> k in Senders(replies)
  {
    dest := ParsePort(port, 60000);
    var found := CollectReplies(replies);
    FoundKeys(replies);
    out, keys := Devices(found);
  }
}
