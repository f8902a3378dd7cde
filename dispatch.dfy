/**
 * The agent's request handler (main.go): the `switch` that turns one trimmed
 * datagram into one reply. The steps that touch the system (reading or
 * creating the unique identifier, saving the configuration, writing the
 * network files, reading the network values, naming the interface, rebooting)
 * enter as their outcomes; the handler reports which of the saving,
 * applying and rebooting steps it ran.
 */
module Dispatch {
  import opened Wrappers
  import opened Text
  import opened KeyValue
  import opened AgentCodec
  import opened NetParams

  /** `deviceID`: `DEVICE_ID` when set, otherwise `HOST-` and the host name (`unknown` when
      that is empty). */
  function DeviceID(envId: string, hostname: string): (r: string)
    ensures r != ""
    ensures envId != "" ==> r == envId
    ensures envId == "" && hostname != "" ==> r == "HOST-" + hostname
    ensures envId == "" && hostname == "" ==> r == "HOST-unknown"
  {
    if envId != "" then envId else "HOST-" + (if hostname == "" then "unknown" else hostname)
  }

  /** The listening port: `UDP_PORT` when set, `60000` otherwise. */
  function ListenPort(envPort: string): (r: string)
    ensures r != ""
    ensures envPort != "" ==> r == envPort
    ensures envPort == "" ==> r == "60000"
  {
    if envPort != "" then envPort else "60000"
  }

  /** What the system steps of one request come out as. */
  datatype Outcomes = Outcomes(
    uniqueId: string,             // what `ensureUniqueID` returns (its error is only logged)
    saveOk: bool,                 // `saveConfig` succeeded
    dhcpOk: bool,                 // `applySystemdNetworkDHCP` succeeded
    staticOk: bool,               // `applySystemdNetworkConfig` succeeded
    net: NetValues,               // `getNetworkParams`
    ifaceName: string,            // `ifaceName`
    rebootError: Option<string>)  // `restartHost`: None on success, else the error text

  /** Which network writer a request ran. */
  datatype Apply = NoApply | ApplyDhcp | ApplyStatic(values: NetValues)

  /** The reply and the steps run: the record saved, the network write, a reboot attempt. */
  datatype Handling = Handling(reply: string, saved: Option<DeviceConfig>, apply: Apply, restart: bool)

  /** One of the six spellings of the network query, in upper case. */
  predicate IsQueryWord(up: string) {
    up == "QUERY" || up == "QRY" || up == "QUERY_NET" || up == "QRY_NET" || up == "NET" || up == "GET_NET"
  }

  /** One of the six spellings of the network query, in any case. */
  predicate IsQuery(msg: string) {
    EqualFold(msg, "QUERY") || EqualFold(msg, "QRY") || EqualFold(msg, "QUERY_NET")
      || EqualFold(msg, "QRY_NET") || EqualFold(msg, "NET") || EqualFold(msg, "GET_NET")
  }

  /** A configuration request. */
  predicate IsCfg(msg: string) {
    HasPrefix(ToUpper(msg), "CFG|")
  }

  /** The reply to a network query: `NET`, the non-empty values in the order IP, MASK, GW,
      DNS, then the interface name twice, `eth0` when none is known. */
  function NetReply(v: NetValues, ifn: string): string {
    var n := if ifn == "" then "eth0" else ifn;
    Join(["NET"] + Optional("IP", v.ip) + Optional("MASK", v.mask) + Optional("GW", v.gw)
      + Optional("DNS", v.dns) + ["IF=" + n, "IFACE=" + n], '|')
  }

  /** The reply to a failed reboot: every `|` of the error text becomes `:`. */
  function RestartNack(err: string): string {
    "RESTART_NACK|ERR=" + ReplaceChar(err, '|', ':')
  }

  /** The record a configuration request saves: its fields, with `deviceID` for a missing ID. */
  function SavedConfig(msg: string, deviceId: string): (cfg: DeviceConfig)
    ensures deviceId != "" ==> cfg.id != ""
  {
    var c := ConfigOf(msg);
    if c.id == "" then c.(id := deviceId) else c
  }

  /** What the configuration case reads from the message: the record to save, whether DHCP
      is asked for, and the network values. */
  datatype CfgRequest = CfgRequest(cfg: DeviceConfig, dhcp: bool, net: NetValues)

  function ParseCfgRequest(msg: string, deviceId: string): CfgRequest {
    CfgRequest(SavedConfig(msg, deviceId), HasDHCPFlag(msg), NetValuesOf(msg))
  }

  /** The `CFG|` case once the message is parsed: save the record, then the DHCP writer when
      DHCP is asked for, else the static writer when the request holds any network value,
      else no writer. */
  function CfgHandling(req: CfgRequest, o: Outcomes): Handling {
    var cfg := req.cfg;
    var ack := "CFG_ACK|ID=" + cfg.id;
    if !o.saveOk then Handling("CFG_NACK|ERR=SAVE_FAILED", Some(cfg), NoApply, false)
    else if req.dhcp then
      Handling(ack + (if o.dhcpOk then "|NET_ACK" else "|NET_NACK"), Some(cfg), ApplyDhcp, false)
    else if Meaningful(req.net) then
      Handling(ack + (if o.staticOk then "|NET_ACK" else "|NET_NACK"), Some(cfg), ApplyStatic(req.net), false)
    else Handling(ack, Some(cfg), NoApply, false)
  }

  /** The cases of the switch. */
  datatype Command = Probe | GetId | Query | Configure | Restart | Unknown

  /** Which case a trimmed message takes, tried in the order the agent tries them; each
      `EqualFold` against an upper-case word is a comparison of the upper-cased message with
      it (`ClassifyFolds`). */
  function Classify(msg: string): Command {
    var up := ToUpper(msg);
    if up == "TF" then Probe
    else if up == "GET_ID" then GetId
    else if IsQueryWord(up) then Query
    else if HasPrefix(up, "CFG|") then Configure
    else if up == "RESTART" then Restart
    else Unknown
  }

  /** The switch on one datagram. */
  function Handle(raw: string, port: string, deviceId: string, o: Outcomes): Handling {
    var msg := TrimSpace(raw);
    Respond(Classify(msg), ParseCfgRequest(msg, deviceId), port, o)
  }

  /** The body of each case of the switch; `req` is read from the message in the
      configuration case only. */
  function Respond(cmd: Command, req: CfgRequest, port: string, o: Outcomes): Handling {
    match cmd
    case Probe => Handling("TF|ID=" + o.uniqueId + "|PORT=" + port, None, NoApply, false)
    case GetId => Handling("ID=" + o.uniqueId, None, NoApply, false)
    case Query => Handling(NetReply(o.net, o.ifaceName), None, NoApply, false)
    case Configure => CfgHandling(req, o)
    case Restart =>
      Handling(match o.rebootError case None => "RESTART_ACK" case Some(e) => RestartNack(e), None, NoApply, true)
    case Unknown => Handling("UNKNOWN_CMD", None, NoApply, false)
  }

  // What the handler promises.

  /** `EqualFold` against an upper-case word compares the upper-cased message with it. */
  lemma FoldWord(msg: string, w: string)
    requires NoLower(w)
    ensures EqualFold(msg, w) <==> ToUpper(msg) == w
  {
    ToUpperOfNoLower(w);
    EqualFoldUpper(msg, w);
  }

  lemma QueryFolds(msg: string)
    ensures IsQuery(msg) <==> IsQueryWord(ToUpper(msg))
  {
    var up := ToUpper(msg);
    assert EqualFold(msg, "QUERY") <==> up == "QUERY" by { FoldWord(msg, "QUERY"); }
    assert EqualFold(msg, "QRY") <==> up == "QRY" by { FoldWord(msg, "QRY"); }
    assert EqualFold(msg, "QUERY_NET") <==> up == "QUERY_NET" by { FoldWord(msg, "QUERY_NET"); }
    assert EqualFold(msg, "QRY_NET") <==> up == "QRY_NET" by { FoldWord(msg, "QRY_NET"); }
    assert EqualFold(msg, "NET") <==> up == "NET" by { FoldWord(msg, "NET"); }
    assert EqualFold(msg, "GET_NET") <==> up == "GET_NET" by { FoldWord(msg, "GET_NET"); }
  }

  /** Commands are recognised in any letter case, after trimming. */
  predicate Recognised(msg: string) {
    EqualFold(msg, "TF") || EqualFold(msg, "GET_ID") || IsQuery(msg) || IsCfg(msg) || EqualFold(msg, "RESTART")
  }

  /** The cases are told apart by `EqualFold` against the command words, and no message
      matches two of them, so their order does not matter. */
  lemma ClassifyFolds(msg: string)
    ensures Classify(msg) == Probe <==> EqualFold(msg, "TF")
    ensures Classify(msg) == GetId <==> EqualFold(msg, "GET_ID")
    ensures Classify(msg) == Query <==> IsQuery(msg)
    ensures Classify(msg) == Configure <==> IsCfg(msg)
    ensures Classify(msg) == Restart <==> EqualFold(msg, "RESTART")
    ensures Classify(msg) == Unknown <==> !Recognised(msg)
  {
    FoldWord(msg, "TF");
    FoldWord(msg, "GET_ID");
    FoldWord(msg, "RESTART");
    QueryFolds(msg);
    var up := ToUpper(msg);
    if HasPrefix(up, "CFG|") {
      assert up[0] == 'C';
    }
  }

  /** A `CFG|` message takes the configuration case. */
  lemma CfgIsNoWord(msg: string)
    requires IsCfg(msg)
    ensures Classify(msg) == Configure
  {
    assert ToUpper(msg)[0] == 'C';
  }

  /** What follows `CFG_ACK|ID=<id>` in a reply: nothing when no writer ran, else whether
      the writer that ran succeeded. */
  function NetSuffix(apply: Apply, o: Outcomes): string {
    match apply
    case NoApply => ""
    case ApplyDhcp => if o.dhcpOk then "|NET_ACK" else "|NET_NACK"
    case ApplyStatic(_) => if o.staticOk then "|NET_ACK" else "|NET_NACK"
  }

  /** The parsed `CFG|` case: the record is always saved; the reply is the NACK exactly when
      saving fails; the DHCP writer runs exactly when saving succeeds and DHCP is asked for;
      the static writer runs, with the request's values, exactly when saving succeeds, DHCP
      is not asked for and a value is present; an ACK names the ID and reports the writer
      that ran. */
  lemma CfgHandlingCases(req: CfgRequest, o: Outcomes)
    ensures var h := CfgHandling(req, o);
      h.saved == Some(req.cfg) && !h.restart
      && (h.reply == "CFG_NACK|ERR=SAVE_FAILED" <==> !o.saveOk)
      && (h.apply == ApplyDhcp <==> o.saveOk && req.dhcp)
      && (h.apply.ApplyStatic? <==> o.saveOk && !req.dhcp && Meaningful(req.net))
      && (h.apply.ApplyStatic? ==> h.apply.values == req.net)
      && (o.saveOk ==> h.reply == "CFG_ACK|ID=" + req.cfg.id + NetSuffix(h.apply, o))
  {
    var h := CfgHandling(req, o);
    if o.saveOk {
      assert h.reply[4] == 'A';
    }
  }

  /** A `CFG|` message takes the configuration case of the switch. */
  lemma CfgDispatch(raw: string, port: string, deviceId: string, o: Outcomes)
    requires IsCfg(TrimSpace(raw))
    ensures var msg := TrimSpace(raw);
      Handle(raw, port, deviceId, o) == CfgHandling(ParseCfgRequest(msg, deviceId), o)
  {
    CfgIsNoWord(TrimSpace(raw));
  }

  /** The configuration cases of a whole datagram, with the saved ID the message's own or
      `deviceID` when the message names none. */
  lemma CfgCases(raw: string, port: string, deviceId: string, o: Outcomes)
    requires IsCfg(TrimSpace(raw))
    ensures var msg := TrimSpace(raw);
      var h := Handle(raw, port, deviceId, o);
      var id := if ConfigOf(msg).id != "" then ConfigOf(msg).id else deviceId;
      h.saved == Some(DeviceConfig(id, ConfigOf(msg).ip, ConfigOf(msg).port)) && !h.restart
      && (h.reply == "CFG_NACK|ERR=SAVE_FAILED" <==> !o.saveOk)
      && (h.apply == ApplyDhcp <==> o.saveOk && HasDHCPFlag(msg))
      && (h.apply.ApplyStatic? <==> o.saveOk && !HasDHCPFlag(msg) && Meaningful(NetValuesOf(msg)))
      && (h.apply.ApplyStatic? ==> h.apply.values == NetValuesOf(msg))
      && (o.saveOk ==> h.reply == "CFG_ACK|ID=" + id + NetSuffix(h.apply, o))
  {
    var msg := TrimSpace(raw);
    CfgDispatch(raw, port, deviceId, o);
    CfgHandlingCases(ParseCfgRequest(msg, deviceId), o);
  }

  /** Only a configuration request whose save succeeded runs a network writer, and the
      static writer never runs for a message that asks for DHCP. */
  lemma WritersOnlyAfterSave(raw: string, port: string, deviceId: string, o: Outcomes)
    ensures var h := Handle(raw, port, deviceId, o);
      (h.apply != NoApply ==> IsCfg(TrimSpace(raw)) && o.saveOk)
      && (h.apply.ApplyStatic? ==> !HasDHCPFlag(TrimSpace(raw)) && Meaningful(h.apply.values))
  {
    var msg := TrimSpace(raw);
    var req := ParseCfgRequest(msg, deviceId);
    assert req.dhcp == HasDHCPFlag(msg);
    ConfigureIsCfg(msg);
    RespondWriters(Classify(msg), req, port, o);
  }

  lemma ConfigureIsCfg(msg: string)
    ensures Classify(msg) == Configure ==> IsCfg(msg)
  {
  }

  /** Only the configuration case runs a writer, and only after a successful save. */
  lemma RespondWriters(cmd: Command, req: CfgRequest, port: string, o: Outcomes)
    ensures var h := Respond(cmd, req, port, o);
      (h.apply != NoApply ==> cmd == Configure && o.saveOk)
      && (h.apply.ApplyStatic? ==> !req.dhcp && Meaningful(h.apply.values))
  {
    if cmd == Configure {
      CfgHandlingCases(req, o);
    }
  }

  lemma PrefixedFive(a: seq<string>, b: seq<string>, c: seq<string>, d: seq<string>, e: seq<string>)
    ensures Prefixed(a + b + c + d + e, '|')
      == Prefixed(a, '|') + Prefixed(b, '|') + Prefixed(c, '|') + Prefixed(d, '|') + Prefixed(e, '|')
  {
    PrefixedAppend(a + b + c + d, e, '|');
    PrefixedAppend(a + b + c, d, '|');
    PrefixedAppend(a + b, c, '|');
    PrefixedAppend(a, b, '|');
  }

  lemma IfaceText(n: string)
    ensures Prefixed(["IF=" + n, "IFACE=" + n], '|') == "|IF=" + n + "|IFACE=" + n
  {
    var tail := ["IF=" + n, "IFACE=" + n];
    assert tail[1..] == ["IFACE=" + n];
    assert tail[1..][1..] == [];
    assert Prefixed(tail[1..], '|') == ['|'] + ("IFACE=" + n);
    assert ['|'] + "IF=" == "|IF=" && ['|'] + "IFACE=" == "|IFACE=";
  }

  /** The reply to a query: `NET`, then `|KEY=value` for each non-empty value in order, then
      `|IF=n|IFACE=n`. */
  lemma NetReplyText(v: NetValues, ifn: string)
    ensures var n := if ifn == "" then "eth0" else ifn;
      NetReply(v, ifn) == "NET" + OptionalText("IP", v.ip) + OptionalText("MASK", v.mask)
        + OptionalText("GW", v.gw) + OptionalText("DNS", v.dns) + "|IF=" + n + "|IFACE=" + n
  {
    var n := if ifn == "" then "eth0" else ifn;
    var a, b, c, d := Optional("IP", v.ip), Optional("MASK", v.mask), Optional("GW", v.gw), Optional("DNS", v.dns);
    var tail := ["IF=" + n, "IFACE=" + n];
    var parts := a + b + c + d + tail;
    var tx := "|IF=" + n + "|IFACE=" + n;
    var p1, p2, p3 := OptionalText("IP", v.ip), OptionalText("MASK", v.mask), OptionalText("GW", v.gw);
    var p4 := OptionalText("DNS", v.dns);
    assert NetReply(v, ifn) == "NET" + Prefixed(parts, '|') by {
      assert ["NET"] + a + b + c + d + tail == ["NET"] + parts;
      JoinHead("NET", parts, '|');
    }
    assert Prefixed(parts, '|') == p1 + p2 + p3 + p4 + tx by {
      PrefixedFive(a, b, c, d, tail);
      IfaceText(n);
      PrefixedOptional("IP", v.ip);
      PrefixedOptional("MASK", v.mask);
      PrefixedOptional("GW", v.gw);
      PrefixedOptional("DNS", v.dns);
    }
    Regroup(p1, p2, p3, p4, n);
  }

  lemma Regroup(p1: string, p2: string, p3: string, p4: string, n: string)
    ensures "NET" + (p1 + p2 + p3 + p4 + ("|IF=" + n + "|IFACE=" + n))
      == "NET" + p1 + p2 + p3 + p4 + "|IF=" + n + "|IFACE=" + n
  {
  }

  /** A failed reboot's reply has exactly two `|`-separated segments, the second `ERR=` and
      the error text with no `|` left in it. */
  lemma RestartNackSegments(err: string)
    ensures var t := ReplaceChar(err, '|', ':');
      '|' !in t && Split(RestartNack(err), '|') == ["RESTART_NACK", "ERR=" + t]
  {
    var t := ReplaceChar(err, '|', ':');
    assert '|' !in "ERR=" + t;
    assert RestartNack(err) == "RESTART_NACK" + ['|'] + ("ERR=" + t);
    SplitAppendA("RESTART_NACK", '|', "ERR=" + t);
    SplitNone("ERR=" + t, '|');
  }

  /** Every configuration reply starts with `CFG_`. */
  lemma CfgReplyHead(req: CfgRequest, o: Outcomes)
    ensures HasPrefix(CfgHandling(req, o).reply, "CFG_")
  {
  }

  /** `UNKNOWN_CMD` is the reply exactly to the messages no case recognises. */
  lemma UnknownIff(raw: string, port: string, deviceId: string, o: Outcomes)
    ensures Handle(raw, port, deviceId, o).reply == "UNKNOWN_CMD" <==> !Recognised(TrimSpace(raw))
  {
    var msg := TrimSpace(raw);
    var h := Handle(raw, port, deviceId, o);
    ClassifyFolds(msg);
    RespondHead(Classify(msg), ParseCfgRequest(msg, deviceId), port, o);
  }

  lemma NetReplyHead(v: NetValues, ifn: string)
    ensures NetReply(v, ifn) != [] && NetReply(v, ifn)[0] == 'N'
  {
    var n := if ifn == "" then "eth0" else ifn;
    var a, b, c, d := Optional("IP", v.ip), Optional("MASK", v.mask), Optional("GW", v.gw), Optional("DNS", v.dns);
    var parts := a + b + c + d + ["IF=" + n, "IFACE=" + n];
    assert NetReply(v, ifn) == Join(["NET"] + parts, '|') by {
      Regroup5(["NET"], a, b, c, d, ["IF=" + n, "IFACE=" + n]);
    }
    JoinHead("NET", parts, '|');
  }

  lemma Regroup5<T>(h: seq<T>, a: seq<T>, b: seq<T>, c: seq<T>, d: seq<T>, e: seq<T>)
    ensures h + a + b + c + d + e == h + (a + b + c + d + e)
  {
  }

  /** Only the unknown case answers with a reply starting with `U`. */
  lemma RespondHead(cmd: Command, req: CfgRequest, port: string, o: Outcomes)
    ensures var r := Respond(cmd, req, port, o).reply;
      cmd != Unknown ==> r != [] && r[0] != 'U'
  {
    var r := Respond(cmd, req, port, o).reply;
    match cmd
    case Probe =>
      assert r == "TF|ID=" + o.uniqueId + "|PORT=" + port;
      assert r[0] == 'T';
    case GetId =>
      assert r == "ID=" + o.uniqueId;
      assert r[0] == 'I';
    case Query =>
      NetReplyHead(o.net, o.ifaceName);
    case Configure =>
      CfgReplyHead(req, o);
    case Restart =>
      assert r[0] == 'R';
    case Unknown =>
  }

  /** A discovery probe in any case, with blanks around it, is answered with the identifier
      and the port. */
  lemma ProbeReply(raw: string, port: string, deviceId: string, o: Outcomes)
    requires ToUpper(TrimSpace(raw)) == "TF"
    ensures Handle(raw, port, deviceId, o) == Handling("TF|ID=" + o.uniqueId + "|PORT=" + port, None, NoApply, false)
  {
  }
}
