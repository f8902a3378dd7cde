/**
 * The controller's side of the protocol (cmd/discover_gui/main.go): the
 * builders of the `CFG` requests, the parsers of the `NET`, `TF` and
 * `CFG_ACK` replies, `addrIP`, `parsePort`, and the choice of the status
 * and popup texts after a configuration acknowledgement.
 */
module ControllerCodec {
  import opened Wrappers
  import opened Text
  import opened KeyValue
  import opened AgentCodec

  // Building requests.

  /** The request `buildCfg` sends: `CFG`, then `|ID=`, `|IP=` and `|PORT=` with each trimmed
      value that is not empty, in that order. */
  function CfgText(id: string, ip: string, port: string): string {
    "CFG" + OptionalText("ID", TrimSpace(id)) + OptionalText("IP", TrimSpace(ip))
      + OptionalText("PORT", TrimSpace(port))
  }

  /** The request `buildNetCfg` sends: `CFG`, then `|IP=`, `|MASK=`, `|GW=` and `|DNS=` with
      each trimmed value that is not empty, in that order. */
  function NetCfgText(ip: string, mask: string, gw: string, dns: string): string {
    "CFG" + OptionalText("IP", TrimSpace(ip)) + OptionalText("MASK", TrimSpace(mask))
      + OptionalText("GW", TrimSpace(gw)) + OptionalText("DNS", TrimSpace(dns))
  }

  /** The request that asks the agent for DHCP. */
  const DhcpRequest := "CFG|DHCP=1"

  lemma Regroup4<T>(h: seq<T>, a: seq<T>, b: seq<T>, c: seq<T>, d: seq<T>)
    ensures h + a + b + c + d == h + (a + b + c + d)
  {
  }

  /** A message made of a head and four runs of optional segments. */
  lemma JoinRuns(h: string, a: seq<string>, b: seq<string>, c: seq<string>, d: seq<string>)
    ensures Join([h] + a + b + c + d, '|')
      == h + Prefixed(a, '|') + Prefixed(b, '|') + Prefixed(c, '|') + Prefixed(d, '|')
  {
    Regroup4([h], a, b, c, d);
    JoinHead(h, a + b + c + d, '|');
    PrefixedAppend(a + b + c, d, '|');
    PrefixedAppend(a + b, c, '|');
    PrefixedAppend(a, b, '|');
    Regroup4(h, Prefixed(a, '|'), Prefixed(b, '|'), Prefixed(c, '|'), Prefixed(d, '|'));
  }

  /** `buildCfg`: start from `["CFG"]`, append each non-blank trimmed field, join with `|`. */
  method BuildCfg(id: string, ip: string, port: string) returns (r: string)
    ensures r == CfgText(id, ip, port)
  {
    var parts := ["CFG"];
    var tid, tip, tport := TrimSpace(id), TrimSpace(ip), TrimSpace(port);
    if tid != "" {
      parts := parts + [Pair("ID", tid)];
    }
    assert parts == ["CFG"] + Optional("ID", tid);
    if tip != "" {
      parts := parts + [Pair("IP", tip)];
    }
    assert parts == ["CFG"] + Optional("ID", tid) + Optional("IP", tip);
    if tport != "" {
      parts := parts + [Pair("PORT", tport)];
    }
    assert parts == ["CFG"] + Optional("ID", tid) + Optional("IP", tip) + Optional("PORT", tport) + [];
    r := Join(parts, '|');
    JoinRuns("CFG", Optional("ID", tid), Optional("IP", tip), Optional("PORT", tport), []);
    PrefixedOptional("ID", tid);
    PrefixedOptional("IP", tip);
    PrefixedOptional("PORT", tport);
  }

  /** `buildNetCfg`: start from `["CFG"]`, append each non-blank trimmed field, join with `|`. */
  method BuildNetCfg(ip: string, mask: string, gw: string, dns: string) returns (r: string)
    ensures r == NetCfgText(ip, mask, gw, dns)
  {
    var parts := ["CFG"];
    var tip, tmask, tgw, tdns := TrimSpace(ip), TrimSpace(mask), TrimSpace(gw), TrimSpace(dns);
    if tip != "" {
      parts := parts + [Pair("IP", tip)];
    }
    assert parts == ["CFG"] + Optional("IP", tip);
    if tmask != "" {
      parts := parts + [Pair("MASK", tmask)];
    }
    assert parts == ["CFG"] + Optional("IP", tip) + Optional("MASK", tmask);
    if tgw != "" {
      parts := parts + [Pair("GW", tgw)];
    }
    assert parts == ["CFG"] + Optional("IP", tip) + Optional("MASK", tmask) + Optional("GW", tgw);
    if tdns != "" {
      parts := parts + [Pair("DNS", tdns)];
    }
    assert parts == ["CFG"] + Optional("IP", tip) + Optional("MASK", tmask) + Optional("GW", tgw) + Optional("DNS", tdns);
    r := Join(parts, '|');
    JoinRuns("CFG", Optional("IP", tip), Optional("MASK", tmask), Optional("GW", tgw), Optional("DNS", tdns));
    PrefixedOptional("IP", tip);
    PrefixedOptional("MASK", tmask);
    PrefixedOptional("GW", tgw);
    PrefixedOptional("DNS", tdns);
  }

  /** `buildNetCfgWithMode`: the DHCP request when DHCP is selected, the static one otherwise. */
  method BuildNetCfgWithMode(dhcp: bool, ip: string, mask: string, gw: string, dns: string) returns (r: string)
    ensures dhcp ==> r == DhcpRequest
    ensures !dhcp ==> r == NetCfgText(ip, mask, gw, dns)
  {
    if dhcp {
      return DhcpRequest;
    }
    r := BuildNetCfg(ip, mask, gw, dns);
  }

  /** Blank fields add nothing: with every field blank both builders send a bare `CFG`. */
  lemma BlankFieldsGiveBareCfg(id: string, ip: string, mask: string, gw: string, dns: string, port: string)
    requires TrimSpace(id) == "" && TrimSpace(ip) == "" && TrimSpace(port) == ""
    requires TrimSpace(mask) == "" && TrimSpace(gw) == "" && TrimSpace(dns) == ""
    ensures CfgText(id, ip, port) == "CFG" && NetCfgText(ip, mask, gw, dns) == "CFG"
  {
  }

  // Parsing the `NET` reply.

  /** What `parseNetResponse` returns. */
  datatype NetResponse = NetResponse(ip: string, mask: string, gw: string, dns: string, iface: string)

  /** The keys `parseNetResponse` accepts for the interface name. */
  const IfaceKeys: set<string> := {"IF", "IFACE", "ETH", "NIC", "DEV", "INTERFACE", "IFNAME"}

  /** The segments `parseNetResponse` reads: all but the first when the first starts with
      `NET` in any case, all of them otherwise. */
  function ResponseSegments(msg: string): seq<string> {
    var parts := Split(msg, '|');
    if HasPrefix(ToUpper(parts[0]), "NET") then parts[1..] else parts
  }

  /** The fields a run of segments gives: each the value of the last segment naming it, the
      interface the value of the last segment naming any of its keys. */
  function ResponseOf(segs: seq<string>): NetResponse {
    NetResponse(Field(segs, "IP"), Field(segs, "MASK"), Field(segs, "GW"), Field(segs, "DNS"),
      LastValue(segs, IfaceKeys).GetOr(""))
  }

  function NetResponseOf(msg: string): NetResponse {
    ResponseOf(ResponseSegments(msg))
  }

  lemma PrefixOfLonger(s: string, p: string, q: string)
    requires HasPrefix(s, p + q)
    ensures HasPrefix(s, p)
  {
    assert s[..|p|] == s[..|p + q|][..|p|];
  }

  /** `parseNetResponse`: choose where the segments start, then loop over them. */
  method ParseNetResponse(msg: string) returns (r: NetResponse)
    ensures r == NetResponseOf(msg)
  {
    var parts := Split(msg, '|');
    var head := ToUpper(parts[0]);
    var start := 1;
    if HasPrefix(head, "NET") || HasPrefix(head, "NET_IF") {
      start := 1;
      if HasPrefix(head, "NET_IF") {
        assert "NET_IF" == "NET" + "_IF";
        PrefixOfLonger(head, "NET", "_IF");
      }
    } else {
      start := 0;
    }
    r := ScanResponse(parts[start..]);
  }

  /** None of the four address keys names the interface. */
  lemma AddressKeysAreNotIfaceKeys()
    ensures "IP" !in IfaceKeys && "MASK" !in IfaceKeys && "GW" !in IfaceKeys && "DNS" !in IfaceKeys
  {
    assert "IP"[1] != "IF"[1];
    assert "GW"[0] != "IF"[0];
    assert "DNS"[0] != "NIC"[0] && "DNS"[1] != "DEV"[1] && "DNS"[0] != "ETH"[0];
    assert "MASK"[0] != "IFACE"[0];
  }

  /** One more segment sets the field its key names, or the interface for any of the
      interface keys, and leaves the rest as it was. */
  lemma ResponseAppend(segs: seq<string>, p: string)
    ensures var r, e := ResponseOf(segs), ResponseOf(segs + [p]);
      match Segment(p)
      case None => e == r
      case Some((k, v)) =>
        e == if k == "IP" then r.(ip := v) else if k == "MASK" then r.(mask := v)
          else if k == "GW" then r.(gw := v) else if k == "DNS" then r.(dns := v)
          else if k in IfaceKeys then r.(iface := v) else r
  {
    AddressKeysAreNotIfaceKeys();
    LastValueAppend(segs, p, {"IP"});
    LastValueAppend(segs, p, {"MASK"});
    LastValueAppend(segs, p, {"GW"});
    LastValueAppend(segs, p, {"DNS"});
    LastValueAppend(segs, p, IfaceKeys);
  }

  /** The segment loop of `parseNetResponse`. */
  method ScanResponse(segs: seq<string>) returns (r: NetResponse)
    ensures r == ResponseOf(segs)
  {
    r := NetResponse("", "", "", "", "");
    var i := 0;
    while i < |segs|
      invariant 0 <= i <= |segs|
      invariant r == ResponseOf(segs[..i])
    {
      assert segs[..i + 1] == segs[..i] + [segs[i]];
      r := ScanSegment(segs[..i], r, segs[i]);
      i := i + 1;
    }
    assert segs[..i] == segs;
  }

  /** One pass of the loop of `parseNetResponse`: the switch on the segment's key. */
  method ScanSegment(segs: seq<string>, r: NetResponse, p: string) returns (e: NetResponse)
    requires r == ResponseOf(segs)
    ensures e == ResponseOf(segs + [p])
  {
    ResponseAppend(segs, p);
    e := r;
    var kv := Cut(p, '=');
    if kv.Some? {
      var k := ToUpper(TrimSpace(kv.value.0));
      var v := TrimSpace(kv.value.1);
      if k == "IP" {
        e := e.(ip := v);
      } else if k == "MASK" {
        e := e.(mask := v);
      } else if k == "GW" {
        e := e.(gw := v);
      } else if k == "DNS" {
        e := e.(dns := v);
      } else if k in IfaceKeys {
        e := e.(iface := v);
      }
    }
  }

  /** The first segment is skipped exactly when it starts with `NET`, in any case. */
  lemma ResponseHead(h: string, rest: string)
    requires '|' !in h
    ensures HasPrefix(ToUpper(h), "NET") ==> ResponseSegments(h + "|" + rest) == Split(rest, '|')
    ensures !HasPrefix(ToUpper(h), "NET") ==> ResponseSegments(h + "|" + rest) == [h] + Split(rest, '|')
  {
    assert h + "|" + rest == h + ['|'] + rest;
    SplitAppendA(h, '|', rest);
  }

  /** The interface is the value of the last segment naming any of its seven keys, whatever
      the segments before it say. */
  lemma {:induction false} LastIfaceWins(segs: seq<string>, i: nat)
    requires i < |segs| && Assigns(Segment(segs[i]), IfaceKeys)
    requires forall j :: i < j < |segs| ==> !Assigns(Segment(segs[j]), IfaceKeys)
    ensures ResponseOf(segs).iface == Segment(segs[i]).value.1
  {
    var kvs := Parsed(segs);
    ParsedAt(segs, i);
    forall j | i < j < |segs|
      ensures !Assigns(kvs[j], IfaceKeys)
    {
      ParsedAt(segs, j);
    }
    LastAssignedAt(kvs, IfaceKeys, i);
  }

  /** A segment without `=` changes nothing. */
  lemma SegmentWithoutEqualsIgnored(a: seq<string>, p: string, b: seq<string>)
    requires '=' !in p
    ensures ResponseOf(a + [p] + b) == ResponseOf(a + b)
  {
    LastValueSkip(a, p, b, {"IP"});
    LastValueSkip(a, p, b, {"MASK"});
    LastValueSkip(a, p, b, {"GW"});
    LastValueSkip(a, p, b, {"DNS"});
    LastValueSkip(a, p, b, IfaceKeys);
  }

  // Parsing the `TF` reply.

  /** A discovered agent: its address, its control port and its ID. */
  datatype Device = Device(ip: string, port: string, id: string)

  const DefaultPort := "60000"

  /** `addrIP`: the text of the sender's address up to its last `:`, when that is not the
      first character; all of it otherwise. */
  function AddrIP(a: string): (r: string)
    ensures |r| <= |a|
  {
    match LastIndexOf(a, ':')
    case Some(i) => if i > 0 then a[..i] else a
    case None => a
  }

  /** The host part of `host:port` is the host, whatever colons the host itself holds. */
  lemma AddrIPOfHostPort(host: string, port: string)
    requires host != "" && ':' !in port
    ensures AddrIP(host + ":" + port) == host
  {
    assert host + ":" + port == (host + ":") + port;
    LastIndexOfAppend(host + ":", port, ':');
    assert (host + ":" + port)[..|host|] == host;
  }

  /** What `parseDiscovery` returns: the sender's address, and the last `ID` and `PORT` of
      the segments after the first; the port defaults to 60000. */
  function DeviceOf(from: string, msg: string): Device {
    var segs := Split(msg, '|')[1..];
    var port := Field(segs, "PORT");
    Device(AddrIP(from), if port == "" then DefaultPort else port, Field(segs, "ID"))
  }

  /** `parseDiscovery`: loop over the segments after the first, then default the port. */
  method ParseDiscovery(from: string, msg: string) returns (d: Device)
    ensures d == DeviceOf(from, msg)
  {
    d := Device(AddrIP(from), "", "");
    var parts := Split(msg, '|');
    var segs := parts[1..];
    var i := 0;
    while i < |segs|
      invariant 0 <= i <= |segs|
      invariant d == Device(AddrIP(from), Field(segs[..i], "PORT"), Field(segs[..i], "ID"))
    {
      var p := segs[i];
      LastValueAppend(segs[..i], p, {"ID"});
      LastValueAppend(segs[..i], p, {"PORT"});
      assert segs[..i + 1] == segs[..i] + [p];
      var kv := Cut(p, '=');
      if kv.Some? {
        var k := ToUpper(TrimSpace(kv.value.0));
        var v := TrimSpace(kv.value.1);
        if k == "ID" {
          d := d.(id := v);
        } else if k == "PORT" {
          d := d.(port := v);
        }
      }
      i := i + 1;
    }
    assert segs[..i] == segs;
    if d.port == "" {
      d := d.(port := DefaultPort);
    }
  }

  /** One more segment on a discovery reply: an `ID` or `PORT` segment, whatever the case
      and the blanks around its key, overrides what came before it; any other segment
      changes nothing. An empty port falls back to 60000. */
  lemma DiscoveryAppend(from: string, msg: string, p: string)
    requires '|' !in p
    ensures var d, e := DeviceOf(from, msg), DeviceOf(from, msg + "|" + p);
      e.ip == AddrIP(from)
      && e.id == (if Assigns(Segment(p), {"ID"}) then Segment(p).value.1 else d.id)
      && (Assigns(Segment(p), {"PORT"}) ==> e.port == if Segment(p).value.1 == "" then DefaultPort else Segment(p).value.1)
      && (!Assigns(Segment(p), {"PORT"}) ==> e.port == d.port)
  {
    var parts := Split(msg, '|');
    assert msg + "|" + p == msg + ['|'] + p;
    SplitAppend(msg, '|', p);
    SplitNone(p, '|');
    assert Split(msg + "|" + p, '|')[1..] == parts[1..] + [p];
    LastValueAppend(parts[1..], p, {"ID"});
    LastValueAppend(parts[1..], p, {"PORT"});
  }

  // `parsePort`.

  /** The characters `%d` takes as part of a number: decimal digits and `_`. */
  predicate IsNumeralChar(c: char) {
    IsDigit(c) || c == '_'
  }

  /** The blanks `%d` skips before a number; it stops with an error at a newline (`\r\n`
      included). */
  function SkipBlanks(s: string): (r: Option<string>)
    ensures r.Some? ==> |r.value| <= |s| && (r.value == [] || !IsSpace(r.value[0]))
    decreases |s|
  {
    if s == [] then Some(s)
    else if s[0] == '\n' then None
    else if s[0] == '\r' && |s| > 1 && s[1] == '\n' then None
    else if IsSpace(s[0]) then SkipBlanks(s[1..])
    else Some(s)
  }

  /** The longest run of numeral characters at the start of `s`. */
  function NumeralRun(s: string): (r: string)
    ensures |r| <= |s| && r == s[..|r|]
    ensures forall i :: 0 <= i < |r| ==> IsNumeralChar(r[i])
    ensures |r| < |s| ==> !IsNumeralChar(s[|r|])
  {
    if s != [] && IsNumeralChar(s[0]) then [s[0]] + NumeralRun(s[1..]) else []
  }

  const MaxInt64: nat := 0x7FFF_FFFF_FFFF_FFFF

  /** `fmt.Sscanf(s, "%d", &p)`: skip blanks, read an optional sign and a run of numeral
      characters, which must be digits only and fit in 64 bits; what follows the number is
      not looked at. None is a scan error. */
  function ScanInt(s: string): Option<int> {
    match SkipBlanks(s)
    case None => None
    case Some(t) =>
      if t == [] then None
      else
        var neg := t[0] == '-';
        var d := NumeralRun(if t[0] == '+' || t[0] == '-' then t[1..] else t);
        if d == [] || !AllDigits(d) then None
        else if DecValue(d) > (if neg then MaxInt64 + 1 else MaxInt64) then None
        else
          var v: int := DecValue(d);
          Some(if neg then -v else v)
  }

  /** `parsePort`: the scanned port when it is in 1..65535, `def` for an empty text, a scan
      error or a value out of range. */
  function ParsePort(s: string, def: int): (r: int)
    ensures r == def || 1 <= r <= 65535
    ensures r != def ==> ScanInt(s) == Some(r)
  {
    if s == "" then def
    else match ScanInt(s)
      case None => def
      case Some(p) => if p <= 0 || p > 65535 then def else p
  }

  /** A printed port number comes back, and so it does with anything but a digit or `_`
      after it. */
  lemma ParsePortOfDec(p: nat, rest: string, def: int)
    requires 1 <= p <= 65535 && (rest == [] || !IsNumeralChar(rest[0]))
    ensures ParsePort(NatToDec(p) + rest, def) == p
  {
    var n := NatToDec(p);
    var s := n + rest;
    assert s[0] == n[0];
    DigitNotSpace(n[0]);
    assert SkipBlanks(s) == Some(s);
    NumeralRunOfDigits(n, rest);
    assert NumeralRun(rest) == [];
    assert NumeralRun(s) == n;
    DecValueOfNatToDec(p);
  }

  /** A run of numeral characters is taken whole, and the scan goes on after it. */
  lemma {:induction false} NumeralRunOfDigits(n: string, rest: string)
    requires forall i :: 0 <= i < |n| ==> IsNumeralChar(n[i])
    ensures NumeralRun(n + rest) == n + NumeralRun(rest)
    decreases |n|
  {
    if n == [] {
      assert n + rest == rest;
    } else {
      assert (n + rest)[1..] == n[1..] + rest;
      NumeralRunOfDigits(n[1..], rest);
      assert n == [n[0]] + n[1..];
    }
  }

  /** Leading blanks other than a newline are skipped. */
  lemma ParsePortSkipsBlank(s: string, def: int)
    ensures ParsePort(" " + s, def) == ParsePort(s, def)
    ensures ParsePort("\t" + s, def) == ParsePort(s, def)
  {
    assert (" " + s)[1..] == s;
    assert ("\t" + s)[1..] == s;
  }

  /** A newline before the number is a scan error. */
  lemma ParsePortNewline(s: string, def: int)
    ensures ParsePort("\n" + s, def) == def
    ensures ParsePort("\r\n" + s, def) == def
  {
  }

  /** A sign-less numeral with `_` after its leading digits is a scan error. */
  lemma ParsePortUnderscore(a: string, b: string, def: int)
    requires AllDigits(a)
    ensures ParsePort(a + "_" + b, def) == def
  {
    var s := a + "_" + b;
    if a == [] {
      assert s[0] == '_';
      assert SkipBlanks(s) == Some(s);
    } else {
      assert s[0] == a[0];
      DigitNotSpace(a[0]);
      assert SkipBlanks(s) == Some(s);
    }
    assert s == (a + "_") + b;
    NumeralRunOfDigits(a + "_", b);
    var d := NumeralRun(s);
    assert d[|a|] == '_';
  }

  // The configuration acknowledgement.

  /** Which of the four reply words an acknowledgement holds. */
  datatype CfgAck = CfgAck(netAck: bool, netNack: bool, restartAck: bool, restartNack: bool)

  /** `parseCfgAck`: look for each word anywhere in the upper-cased reply. */
  function ParseCfgAck(msg: string): CfgAck {
    var up := ToUpper(msg);
    CfgAck(Contains(up, "NET_ACK"), Contains(up, "NET_NACK"), Contains(up, "RESTART_ACK"),
      Contains(up, "RESTART_NACK"))
  }

  /** The four outcomes the controller reports after a configuration write. */
  datatype Outcome = NetWriteFailed | RestartOK | RestartFailed | SavedOnly

  /** A text per outcome, in one language; the texts themselves are not part of this model. */
  datatype Phrases = Phrases(netWriteFailed: string, restartOK: string, restartFailed: string, savedOnly: string)
  {
    function Pick(o: Outcome): string {
      match o
      case NetWriteFailed => netWriteFailed
      case RestartOK => restartOK
      case RestartFailed => restartFailed
      case SavedOnly => savedOnly
    }
  }

  /** `StatusText`: the status-bar text for an acknowledgement. */
  function StatusText(c: CfgAck, status: Phrases): string {
    if c.netNack then status.netWriteFailed
    else if c.netAck && c.restartAck then status.restartOK
    else if c.netAck && c.restartNack then status.restartFailed
    else status.savedOnly
  }

  /** `PopupText`: the popup text for an acknowledgement. */
  function PopupText(c: CfgAck, popup: Phrases): string {
    if c.netNack then popup.netWriteFailed
    else if c.netAck && c.restartAck then popup.restartOK
    else if c.netAck && c.restartNack then popup.restartFailed
    else popup.savedOnly
  }

  /** The outcome an acknowledgement reports: a failed network write decides alone; without a
      network acknowledgement only the save is reported; with one, the restart word decides,
      an acknowledged restart first. */
  function OutcomeOf(c: CfgAck): Outcome {
    if c.netNack then NetWriteFailed
    else if !c.netAck then SavedOnly
    else if c.restartAck then RestartOK
    else if c.restartNack then RestartFailed
    else SavedOnly
  }

  /** The status bar and the popup always report the same outcome. */
  lemma TextsAgree(c: CfgAck, status: Phrases, popup: Phrases)
    ensures StatusText(c, status) == status.Pick(OutcomeOf(c))
    ensures PopupText(c, popup) == popup.Pick(OutcomeOf(c))
  {
  }

  /** What each outcome says about the words of the reply. */
  lemma OutcomeCases(msg: string)
    ensures var c, up := ParseCfgAck(msg), ToUpper(msg);
      (OutcomeOf(c) == NetWriteFailed <==> Contains(up, "NET_NACK"))
      && (OutcomeOf(c) == RestartOK <==> !Contains(up, "NET_NACK") && Contains(up, "NET_ACK") && Contains(up, "RESTART_ACK"))
      && (OutcomeOf(c) == RestartFailed <==>
            !Contains(up, "NET_NACK") && Contains(up, "NET_ACK") && !Contains(up, "RESTART_ACK") && Contains(up, "RESTART_NACK"))
  {
  }
}
