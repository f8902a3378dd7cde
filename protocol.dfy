/**
 * The two sides together: what the agent (main.go) makes of the controller's requests
 * (cmd/discover_gui/main.go), and what the controller makes of the agent's replies.
 */
module Protocol {
  import opened Wrappers
  import opened Text
  import opened KeyValue
  import opened AgentCodec
  import opened NetParams
  import opened Dispatch
  import opened ControllerCodec
  import opened Correlation

  /** A key the builders write: no `=`, no blank at its ends, no lower-case letter. */
  predicate KeyWord(k: string) {
    '=' !in k && Trimmed(k) && NoLower(k)
  }

  /** An optional segment assigns its key its value, when the value is there. */
  lemma OptionalValue(k: string, v: string, keys: set<string>)
    requires KeyWord(k) && Trimmed(v)
    ensures LastValue(Optional(k, v), keys) == if v != "" && k in keys then Some(v) else None
  {
    if v != "" {
      LastValueOne(Pair(k, v), keys);
      SegmentOfPair(k, v);
    }
  }

  /** The later of two answers: the second when there is one. */
  function Later(x: Option<string>, y: Option<string>): Option<string> {
    if y.Some? then y else x
  }

  /** The last value over four runs of segments is that of the last run that has one. */
  lemma LastOfRuns(a: seq<string>, b: seq<string>, c: seq<string>, d: seq<string>, keys: set<string>)
    ensures LastValue(a + b + c + d, keys)
      == Later(Later(Later(LastValue(a, keys), LastValue(b, keys)), LastValue(c, keys)), LastValue(d, keys))
  {
    LastValueConcat(a + b + c, d, keys);
    LastValueConcat(a + b, c, keys);
    LastValueConcat(a, b, keys);
  }

  /** What a run of segments assigns to `key`: `v` when `v` is not empty and `k` is `key`,
      nothing otherwise. */
  predicate RunAssigns(a: seq<string>, k: string, v: string, key: string) {
    LastValue(a, {key}) == if v != "" && k == key then Some(v) else None
  }

  /** The same for each of the four keys of the network request. */
  predicate NetRun(a: seq<string>, k: string, v: string) {
    RunAssigns(a, k, v, "IP") && RunAssigns(a, k, v, "MASK") && RunAssigns(a, k, v, "GW")
      && RunAssigns(a, k, v, "DNS")
  }

  lemma OptionalNetRun(k: string, v: string)
    requires KeyWord(k) && Trimmed(v)
    ensures NetRun(Optional(k, v), k, v)
  {
    OptionalValue(k, v, {"IP"});
    OptionalValue(k, v, {"MASK"});
    OptionalValue(k, v, {"GW"});
    OptionalValue(k, v, {"DNS"});
  }

  /** Each key of a static request is read back from its own run: the other three runs
      assign nothing to it. */
  lemma NetFields(a: seq<string>, b: seq<string>, c: seq<string>, d: seq<string>,
                  t1: string, t2: string, t3: string, t4: string)
    requires NetRun(a, "IP", t1) && NetRun(b, "MASK", t2) && NetRun(c, "GW", t3) && NetRun(d, "DNS", t4)
    ensures var segs := a + b + c + d;
      Field(segs, "IP") == t1 && Field(segs, "MASK") == t2 && Field(segs, "GW") == t3 && Field(segs, "DNS") == t4
  {
    NetKeys();
    LastOfRuns(a, b, c, d, {"IP"});
    LastOfRuns(a, b, c, d, {"MASK"});
    LastOfRuns(a, b, c, d, {"GW"});
    LastOfRuns(a, b, c, d, {"DNS"});
  }

  lemma NetKeys()
    ensures KeyWord("IP") && KeyWord("MASK") && KeyWord("GW") && KeyWord("DNS")
    ensures "IP" != "MASK" && "IP" != "GW" && "IP" != "DNS" && "MASK" != "GW" && "MASK" != "DNS" && "GW" != "DNS"
  {
    assert "IP"[0] != "GW"[0];
  }

  /** No part holds a `|`. */
  predicate NoBar(parts: seq<string>) {
    forall k :: 0 <= k < |parts| ==> '|' !in parts[k]
  }

  lemma NoBarConcat(x: seq<string>, y: seq<string>)
    requires NoBar(x) && NoBar(y)
    ensures NoBar(x + y)
  {
    assert forall k :: |x| <= k < |x + y| ==> (x + y)[k] == y[k - |x|];
  }

  /** An optional segment holds a `|` only when its key or its value does. */
  lemma OptionalNoBar(k: string, v: string)
    requires '|' !in k && '|' !in v
    ensures NoBar(Optional(k, v))
  {
  }

  /** `parseNetKV` reads the segments after the head of a joined message, or the head
      alone when there are none. */
  lemma BodyAfterHead(h: string, parts: seq<string>)
    requires '|' !in h && NoBar(parts)
    ensures Split(NetKVBody(Join([h] + parts, '|')), '|') == if parts == [] then [h] else parts
  {
    var s := Join([h] + parts, '|');
    if parts == [] {
      assert [h] + parts == [h];
      SplitNone(h, '|');
    } else {
      assert ([h] + parts)[1..] == parts;
      assert s == h + ['|'] + Join(parts, '|');
      assert s[..|h|] == h;
      IndexOfAt(s, '|', |h|);
      assert s[|h| + 1..] == Join(parts, '|');
      SplitJoin(parts, '|');
    }
  }

  /** A head without `=` assigns nothing. */
  lemma HeadAssignsNothing(h: string, key: string)
    requires '=' !in h
    ensures Field([h], key) == ""
  {
    LastValueOne(h, {key});
  }

  /** The optional segments of the four network values, in the order both sides write them. */
  function NetSegments(t1: string, t2: string, t3: string, t4: string): seq<string> {
    Optional("IP", t1) + Optional("MASK", t2) + Optional("GW", t3) + Optional("DNS", t4)
  }

  /** Each value is read back from the network segments. */
  lemma NetSegmentsFields(t1: string, t2: string, t3: string, t4: string)
    requires Trimmed(t1) && Trimmed(t2) && Trimmed(t3) && Trimmed(t4)
    ensures var segs := NetSegments(t1, t2, t3, t4);
      Field(segs, "IP") == t1 && Field(segs, "MASK") == t2 && Field(segs, "GW") == t3 && Field(segs, "DNS") == t4
  {
    NetKeys();
    OptionalNetRun("IP", t1);
    OptionalNetRun("MASK", t2);
    OptionalNetRun("GW", t3);
    OptionalNetRun("DNS", t4);
    NetFields(Optional("IP", t1), Optional("MASK", t2), Optional("GW", t3), Optional("DNS", t4), t1, t2, t3, t4);
  }

  /** No network segment holds a `|` when no value does. */
  lemma NetSegmentsNoBar(t1: string, t2: string, t3: string, t4: string)
    requires '|' !in t1 && '|' !in t2 && '|' !in t3 && '|' !in t4
    ensures NoBar(NetSegments(t1, t2, t3, t4))
  {
    var a, b, c, d := Optional("IP", t1), Optional("MASK", t2), Optional("GW", t3), Optional("DNS", t4);
    OptionalNoBar("IP", t1);
    OptionalNoBar("MASK", t2);
    OptionalNoBar("GW", t3);
    OptionalNoBar("DNS", t4);
    NoBarConcat(a, b);
    NoBarConcat(a + b, c);
    NoBarConcat(a + b + c, d);
  }

  /** The static request is `CFG` joined with its optional segments. */
  lemma NetCfgJoin(ip: string, mask: string, gw: string, dns: string)
    ensures NetCfgText(ip, mask, gw, dns)
      == Join(["CFG"] + NetSegments(TrimSpace(ip), TrimSpace(mask), TrimSpace(gw), TrimSpace(dns)), '|')
  {
    var t1, t2, t3, t4 := TrimSpace(ip), TrimSpace(mask), TrimSpace(gw), TrimSpace(dns);
    var a, b, c, d := Optional("IP", t1), Optional("MASK", t2), Optional("GW", t3), Optional("DNS", t4);
    JoinRuns("CFG", a, b, c, d);
    PrefixedOptional("IP", t1);
    PrefixedOptional("MASK", t2);
    PrefixedOptional("GW", t3);
    PrefixedOptional("DNS", t4);
    Regroup4(["CFG"], a, b, c, d);
  }

  /** Round trip of the static request: when no field holds a `|`, the agent's
      `parseNetKV` reads back exactly the trimmed fields the controller sent. */
  lemma NetCfgRoundTrip(ip: string, mask: string, gw: string, dns: string)
    requires '|' !in ip && '|' !in mask && '|' !in gw && '|' !in dns
    ensures NetValuesOf(NetCfgText(ip, mask, gw, dns))
      == NetValues(TrimSpace(ip), TrimSpace(mask), TrimSpace(gw), TrimSpace(dns))
  {
    var t1, t2, t3, t4 := TrimSpace(ip), TrimSpace(mask), TrimSpace(gw), TrimSpace(dns);
    var segs := NetSegments(t1, t2, t3, t4);
    NetCfgJoin(ip, mask, gw, dns);
    TrimSpaceWithout(ip, '|');
    TrimSpaceWithout(mask, '|');
    TrimSpaceWithout(gw, '|');
    TrimSpaceWithout(dns, '|');
    NetSegmentsNoBar(t1, t2, t3, t4);
    NetSegmentsFields(t1, t2, t3, t4);
    assert segs == [] ==> t1 == "" && t2 == "" && t3 == "" && t4 == "";
    NetValuesOfJoin(segs, t1, t2, t3, t4);
  }

  /** The values `parseNetKV` reads from `CFG` and the given segments. */
  lemma NetValuesOfJoin(segs: seq<string>, t1: string, t2: string, t3: string, t4: string)
    requires NoBar(segs)
    requires segs == [] ==> t1 == "" && t2 == "" && t3 == "" && t4 == ""
    requires Field(segs, "IP") == t1 && Field(segs, "MASK") == t2 && Field(segs, "GW") == t3 && Field(segs, "DNS") == t4
    ensures NetValuesOf(Join(["CFG"] + segs, '|')) == NetValues(t1, t2, t3, t4)
  {
    BodyAfterHead("CFG", segs);
    if segs == [] {
      HeadAssignsNothing("CFG", "IP");
      HeadAssignsNothing("CFG", "MASK");
      HeadAssignsNothing("CFG", "GW");
      HeadAssignsNothing("CFG", "DNS");
    }
  }

  // The network query.

  /** The two interface segments that end the agent's `NET` reply. */
  function IfaceSegments(n: string): seq<string> {
    ["IF=" + n, "IFACE=" + n]
  }

  lemma IfaceSegmentsNoBar(n: string)
    requires '|' !in n
    ensures NoBar(IfaceSegments(n))
  {
  }

  /** The last value over two segments. */
  lemma TwoSegments(x: string, y: string, keys: set<string>)
    ensures LastValue([x, y], keys)
      == if Assigns(Segment(y), keys) then Some(Segment(y).value.1)
         else if Assigns(Segment(x), keys) then Some(Segment(x).value.1) else None
  {
    assert [x, y] == [x] + [y];
    LastValueAppend([x], y, keys);
    LastValueOne(x, keys);
  }

  /** The interface segments name the interface and none of the four address keys. */
  lemma IfaceSegmentValues(n: string)
    requires Trimmed(n)
    ensures var tail := IfaceSegments(n);
      LastValue(tail, IfaceKeys) == Some(n) && LastValue(tail, {"IP"}) == None
      && LastValue(tail, {"MASK"}) == None && LastValue(tail, {"GW"}) == None && LastValue(tail, {"DNS"}) == None
  {
    var x, y := "IF=" + n, "IFACE=" + n;
    assert Segment(x) == Some(("IF", n)) && Segment(y) == Some(("IFACE", n)) by {
      assert x == Pair("IF", n) && y == Pair("IFACE", n);
      assert KeyWord("IF") && KeyWord("IFACE");
      SegmentOfPair("IF", n);
      SegmentOfPair("IFACE", n);
    }
    InterfaceTail(x, y, n);
  }

  lemma InterfaceTail(x: string, y: string, n: string)
    requires Segment(x) == Some(("IF", n)) && Segment(y) == Some(("IFACE", n))
    ensures LastValue([x, y], IfaceKeys) == Some(n) && LastValue([x, y], {"IP"}) == None
      && LastValue([x, y], {"MASK"}) == None && LastValue([x, y], {"GW"}) == None && LastValue([x, y], {"DNS"}) == None
  {
    assert "IF" != "IP" && "IF" != "GW" by { assert "IF"[1] != "IP"[1] && "IF"[0] != "GW"[0]; }
    TwoSegments(x, y, IfaceKeys);
    TwoSegments(x, y, {"IP"});
    TwoSegments(x, y, {"MASK"});
    TwoSegments(x, y, {"GW"});
    TwoSegments(x, y, {"DNS"});
  }

  /** The response read from the address runs followed by the interface segments. */
  lemma ResponseOfRuns(segs: seq<string>, tail: seq<string>, v: NetValues, n: string)
    requires Field(segs, "IP") == v.ip && Field(segs, "MASK") == v.mask
    requires Field(segs, "GW") == v.gw && Field(segs, "DNS") == v.dns
    requires LastValue(tail, IfaceKeys) == Some(n) && LastValue(tail, {"IP"}) == None
    requires LastValue(tail, {"MASK"}) == None && LastValue(tail, {"GW"}) == None && LastValue(tail, {"DNS"}) == None
    ensures ResponseOf(segs + tail) == NetResponse(v.ip, v.mask, v.gw, v.dns, n)
  {
    LastValueConcat(segs, tail, {"IP"});
    LastValueConcat(segs, tail, {"MASK"});
    LastValueConcat(segs, tail, {"GW"});
    LastValueConcat(segs, tail, {"DNS"});
    LastValueConcat(segs, tail, IfaceKeys);
  }

  /** A `NET` message is read from the segments after its head. */
  lemma NetHeadSkipped(segs: seq<string>)
    requires NoBar(segs)
    ensures ResponseSegments(Join(["NET"] + segs, '|')) == segs
  {
    assert Split(Join(["NET"] + segs, '|'), '|') == ["NET"] + segs by {
      NoBarConcat(["NET"], segs);
      SplitJoin(["NET"] + segs, '|');
    }
    assert (["NET"] + segs)[0] == "NET" && (["NET"] + segs)[1..] == segs;
    assert HasPrefix(ToUpper("NET"), "NET") by {
      ToUpperOfNoLower("NET");
    }
  }

  /** The agent's reply to a network query is `NET`, the network segments and the
      interface segments, joined. */
  lemma NetReplyJoin(v: NetValues, ifn: string)
    ensures var n := if ifn == "" then "eth0" else ifn;
      NetReply(v, ifn) == Join(["NET"] + (NetSegments(v.ip, v.mask, v.gw, v.dns) + IfaceSegments(n)), '|')
  {
    var n := if ifn == "" then "eth0" else ifn;
    var a, b, c, d := Optional("IP", v.ip), Optional("MASK", v.mask), Optional("GW", v.gw), Optional("DNS", v.dns);
    Regroup5(["NET"], a, b, c, d, IfaceSegments(n));
  }

  /** The agent's reply to a network query is read back by `parseNetResponse`: the four
      values, and the interface name, `eth0` when the agent knows none; provided the values
      and the name have no blanks at their ends and no `|`. */
  lemma NetReplyRoundTrip(v: NetValues, ifn: string)
    requires Trimmed(v.ip) && Trimmed(v.mask) && Trimmed(v.gw) && Trimmed(v.dns) && Trimmed(ifn)
    requires '|' !in v.ip && '|' !in v.mask && '|' !in v.gw && '|' !in v.dns && '|' !in ifn
    ensures NetResponseOf(NetReply(v, ifn))
      == NetResponse(v.ip, v.mask, v.gw, v.dns, if ifn == "" then "eth0" else ifn)
  {
    var n := if ifn == "" then "eth0" else ifn;
    var segs := NetSegments(v.ip, v.mask, v.gw, v.dns);
    var tail := IfaceSegments(n);
    NetReplyJoin(v, ifn);
    NetSegmentsNoBar(v.ip, v.mask, v.gw, v.dns);
    assert Trimmed(n) && '|' !in n by {
      assert "eth0"[0] == 'e' && "eth0"[3] == '0' && '|' !in "eth0";
    }
    IfaceSegmentsNoBar(n);
    NetSegmentsFields(v.ip, v.mask, v.gw, v.dns);
    IfaceSegmentValues(n);
    ResponseOfJoin(segs, tail, v, n);
  }

  /** The response read from `NET` joined with the address runs and the interface segments. */
  lemma ResponseOfJoin(segs: seq<string>, tail: seq<string>, v: NetValues, n: string)
    requires NoBar(segs) && NoBar(tail)
    requires Field(segs, "IP") == v.ip && Field(segs, "MASK") == v.mask
    requires Field(segs, "GW") == v.gw && Field(segs, "DNS") == v.dns
    requires LastValue(tail, IfaceKeys) == Some(n) && LastValue(tail, {"IP"}) == None
    requires LastValue(tail, {"MASK"}) == None && LastValue(tail, {"GW"}) == None && LastValue(tail, {"DNS"}) == None
    ensures NetResponseOf(Join(["NET"] + (segs + tail), '|')) == NetResponse(v.ip, v.mask, v.gw, v.dns, n)
  {
    NoBarConcat(segs, tail);
    NetHeadSkipped(segs + tail);
    ResponseOfRuns(segs, tail, v, n);
  }

  // Discovery.

  /** The agent's answer to the `TF` probe. */
  function ProbeAnswer(id: string, port: string): string {
    "TF|ID=" + id + "|PORT=" + port
  }

  /** The device a message describes, from the segments after its head. */
  lemma DeviceOfSegments(from: string, msg: string, x: string, y: string, id: string, port: string)
    requires Split(msg, '|')[1..] == [x, y]
    requires Segment(x) == Some(("ID", id)) && Segment(y) == Some(("PORT", port))
    ensures DeviceOf(from, msg) == Device(AddrIP(from), if port == "" then DefaultPort else port, id)
  {
    assert "ID" != "PORT";
    TwoSegments(x, y, {"ID"});
    TwoSegments(x, y, {"PORT"});
  }

  /** The probe answer has no blank at its ends, and its upper-cased form starts with `TF|`. */
  lemma ProbeAnswerShape(id: string, port: string)
    requires Trimmed(port)
    ensures Trimmed(ProbeAnswer(id, port)) && HasPrefix(ToUpper(ProbeAnswer(id, port)), "TF|")
  {
    var r := ProbeAnswer(id, port);
    var h := "TF|ID=" + id + "|PORT=";
    assert r == h + port;
    assert r[0] == 'T';
    assert r[|r| - 1] == if port == "" then '=' else port[|port| - 1];
    assert ToUpper(r)[..3] == "TF|" by {
      assert r[0] == 'T' && r[1] == 'F' && r[2] == '|';
    }
  }

  /** The probe answer splits into its head and the two pairs. */
  lemma ProbeAnswerSplit(id: string, port: string)
    requires '|' !in id && '|' !in port
    ensures Split(ProbeAnswer(id, port), '|') == ["TF", Pair("ID", id), Pair("PORT", port)]
  {
    var x, y := Pair("ID", id), Pair("PORT", port);
    assert ProbeAnswer(id, port) == "TF" + ['|'] + (x + ['|'] + y);
    assert '|' !in x && '|' !in y;
    SplitNone(y, '|');
    SplitAppendA(x, '|', y);
    SplitAppendA("TF", '|', x + ['|'] + y);
  }

  /** A datagram whose trimmed payload starts with `TF|` and carries an ID pair and a PORT pair. */
  lemma DiscoveredOfPairs(d: Datagram, x: string, y: string, id: string, port: string)
    requires Trimmed(d.payload) && HasPrefix(ToUpper(d.payload), "TF|")
    requires Split(d.payload, '|') == ["TF", x, y]
    requires Segment(x) == Some(("ID", id)) && Segment(y) == Some(("PORT", port))
    ensures IsDiscoveryReply(d) && Discovered(d) == Device(AddrIP(d.from), if port == "" then DefaultPort else port, id)
  {
    TrimSpaceOfTrimmed(d.payload);
    assert ["TF", x, y][1..] == [x, y];
    DeviceOfSegments(d.from, d.payload, x, y, id, port);
  }

  /** The two pairs of the probe answer read back as the ID and the port. */
  lemma ProbePairs(id: string, port: string)
    requires Trimmed(id) && Trimmed(port)
    ensures Segment(Pair("ID", id)) == Some(("ID", id)) && Segment(Pair("PORT", port)) == Some(("PORT", port))
  {
    assert KeyWord("ID") && KeyWord("PORT");
    SegmentOfPair("ID", id);
    SegmentOfPair("PORT", port);
  }

  /** `discover` keeps the agent's answer to its probe and reads from it the agent's ID and
      port, 60000 when the port is empty; provided they have no blanks at their ends and
      no `|`. */
  lemma ProbeAnswerDiscovered(from: string, id: string, port: string)
    requires Trimmed(id) && Trimmed(port) && '|' !in id && '|' !in port
    ensures var d := Datagram(from, ProbeAnswer(id, port));
      IsDiscoveryReply(d) && Discovered(d) == Device(AddrIP(from), if port == "" then DefaultPort else port, id)
  {
    var d := Datagram(from, ProbeAnswer(id, port));
    ProbeAnswerShape(id, port);
    ProbeAnswerSplit(id, port);
    ProbePairs(id, port);
    DiscoveredOfPairs(d, Pair("ID", id), Pair("PORT", port), id, port);
  }

  /** The agent's handling of a `TF` probe is the probe answer, which `discover` keeps as the
      agent's device. */
  lemma ProbeHandledAndDiscovered(raw: string, port: string, deviceId: string, o: Outcomes, from: string)
    requires ToUpper(TrimSpace(raw)) == "TF"
    requires Trimmed(o.uniqueId) && Trimmed(port) && '|' !in o.uniqueId && '|' !in port
    ensures var d := Datagram(from, Handle(raw, port, deviceId, o).reply);
      IsDiscoveryReply(d)
      && Discovered(d) == Device(AddrIP(from), if port == "" then DefaultPort else port, o.uniqueId)
  {
    ProbeReply(raw, port, deviceId, o);
    ProbeAnswerDiscovered(from, o.uniqueId, port);
  }

  // The DHCP request.

  /** `CFG|DHCP=1` is a plain upper-case text: `CFG|`, then the pair `DHCP=1`. */
  lemma DhcpWord()
    ensures Trimmed(DhcpRequest) && NoLower(DhcpRequest) && DhcpRequest == "CFG|" + Pair("DHCP", "1")
    ensures OccursAt(DhcpRequest, "DHCP=1", 4)
  {
    var m := DhcpRequest;
    assert Trimmed(m) by { assert m[0] == 'C' && m[|m| - 1] == '1'; }
    assert m[4..10] == "DHCP=1";
  }

  /** `CFG|DHCP=1` has no blank at its ends, is a configuration request that asks for DHCP,
      and names no ID, IP or port. */
  lemma DhcpRequestShape()
    ensures Trimmed(DhcpRequest) && IsCfg(DhcpRequest) && HasDHCPFlag(DhcpRequest)
    ensures ConfigOf(DhcpRequest) == DeviceConfig("", "", "")
  {
    DhcpWord();
    ToUpperOfNoLower(DhcpRequest);
    HeadOf("CFG|", Pair("DHCP", "1"));
    assert ConfigBody(DhcpRequest) == Pair("DHCP", "1");
    DhcpSegment();
  }

  /** A text starts with its own first part. */
  lemma HeadOf(p: string, x: string)
    ensures HasPrefix(p + x, p)
  {
    assert (p + x)[..|p|] == p;
  }

  /** The body of the DHCP request is one segment, which assigns only `DHCP`. */
  lemma DhcpSegment()
    ensures var segs := Split(Pair("DHCP", "1"), '|');
      Field(segs, "ID") == "" && Field(segs, "IP") == "" && Field(segs, "PORT") == ""
  {
    var p := Pair("DHCP", "1");
    DhcpPair();
    assert "DHCP" != "ID" && "DHCP" != "IP" && "DHCP" != "PORT";
    OtherKeyField(p, "DHCP", "1", "ID");
    OtherKeyField(p, "DHCP", "1", "IP");
    OtherKeyField(p, "DHCP", "1", "PORT");
  }

  /** `DHCP=1` is one segment assigning `1` to `DHCP`. */
  lemma DhcpPair()
    ensures var p := Pair("DHCP", "1"); Split(p, '|') == [p] && Segment(p) == Some(("DHCP", "1"))
  {
    var p := Pair("DHCP", "1");
    assert '|' !in p;
    SplitNone(p, '|');
    assert KeyWord("DHCP") && Trimmed("1");
    SegmentOfPair("DHCP", "1");
  }

  /** A lone segment naming another key leaves a field empty. */
  lemma OtherKeyField(p: string, k: string, v: string, key: string)
    requires Segment(p) == Some((k, v)) && k != key
    ensures Field([p], key) == ""
  {
    LastValueOne(p, {key});
  }

  /** The controller's DHCP request makes the agent save its record under its own ID with no
      IP or port, and run the DHCP writer exactly when the save succeeds; the reply is the
      save NACK, or the ACK with the DHCP writer's result. */
  lemma DhcpRequestHandled(port: string, deviceId: string, o: Outcomes)
    ensures var h := Handle(DhcpRequest, port, deviceId, o);
      h.saved == Some(DeviceConfig(deviceId, "", "")) && !h.restart
      && h.apply == (if o.saveOk then ApplyDhcp else NoApply)
      && h.reply == if !o.saveOk then "CFG_NACK|ERR=SAVE_FAILED"
                    else "CFG_ACK|ID=" + deviceId + (if o.dhcpOk then "|NET_ACK" else "|NET_NACK")
  {
    DhcpRequestShape();
    TrimSpaceOfTrimmed(DhcpRequest);
    DhcpHandled(DhcpRequest, port, deviceId, o);
  }

  /** Any configuration request that asks for DHCP and names no ID, IP or port. */
  lemma DhcpHandled(raw: string, port: string, deviceId: string, o: Outcomes)
    requires IsCfg(TrimSpace(raw)) && HasDHCPFlag(TrimSpace(raw))
    requires ConfigOf(TrimSpace(raw)) == DeviceConfig("", "", "")
    ensures var h := Handle(raw, port, deviceId, o);
      h.saved == Some(DeviceConfig(deviceId, "", "")) && !h.restart
      && h.apply == (if o.saveOk then ApplyDhcp else NoApply)
      && h.reply == if !o.saveOk then "CFG_NACK|ERR=SAVE_FAILED"
                    else "CFG_ACK|ID=" + deviceId + (if o.dhcpOk then "|NET_ACK" else "|NET_NACK")
  {
    CfgCases(raw, port, deviceId, o);
  }

  // The replies that end the controller's waits.

  /** A text that starts with an upper-case prefix still starts with it once upper-cased. */
  lemma UpperKeepsPrefix(s: string, p: string)
    requires HasPrefix(s, p) && NoLower(p)
    ensures HasPrefix(ToUpper(s), p)
  {
    assert s == p + s[|p|..];
    ToUpperAppend(p, s[|p|..]);
    ToUpperOfNoLower(p);
  }

  /** A datagram whose payload is an upper-case text with no blank at its ends is read as
      that text. */
  lemma PlainReply(d: Datagram)
    requires Trimmed(d.payload) && NoLower(d.payload)
    ensures ToUpper(Reply(d)) == d.payload
  {
    TrimSpaceOfTrimmed(d.payload);
    ToUpperOfNoLower(d.payload);
  }

  /** The waits on a plain upper-case reply from the target host. */
  lemma PlainAnswers(d: Datagram, ip: string)
    requires Trimmed(d.payload) && NoLower(d.payload) && AddrIP(d.from) == ip
    ensures Answers(d, ip, RestartAckReply) <==> Contains(d.payload, "RESTART_ACK")
    ensures Answers(d, ip, CfgAckReply) <==> HasPrefix(d.payload, "CFG_ACK")
  {
    PlainReply(d);
  }

  /** `RESTART_ACK` is a plain upper-case reply holding `RESTART_ACK`. */
  lemma RestartAckWord()
    ensures Trimmed("RESTART_ACK") && NoLower("RESTART_ACK") && Contains("RESTART_ACK", "RESTART_ACK")
  {
    var m := "RESTART_ACK";
    assert Trimmed(m) by { assert m[0] == 'R' && m[|m| - 1] == 'K'; }
    assert OccursAt(m, m, 0);
  }

  /** The agent's `RESTART_ACK` from the target host ends the restart wait. */
  lemma RestartAckAccepted(from: string, ip: string)
    requires AddrIP(from) == ip
    ensures Answers(Datagram(from, "RESTART_ACK"), ip, RestartAckReply)
  {
    RestartAckWord();
    PlainAnswers(Datagram(from, "RESTART_ACK"), ip);
  }

  /** `RESTART_NACK` is a plain upper-case reply that does not hold `RESTART_ACK`. */
  lemma RestartNackWord()
    ensures Trimmed("RESTART_NACK") && NoLower("RESTART_NACK") && !Contains("RESTART_NACK", "RESTART_ACK")
  {
    var m := "RESTART_NACK";
    assert Trimmed(m) by { assert m[0] == 'R' && m[|m| - 1] == 'K'; }
    var w := "RESTART_ACK";
    assert !OccursAt(m, w, 0) by {
      assert m[0..11][8] == 'N' && w[8] == 'A';
    }
    assert !OccursAt(m, w, 1) by {
      assert m[1..12][0] == 'E' && w[0] == 'R';
    }
  }

  /** A bare `RESTART_NACK` never ends the restart wait. */
  lemma BareRestartNackIgnored(from: string, ip: string)
    ensures !Answers(Datagram(from, "RESTART_NACK"), ip, RestartAckReply)
  {
    if AddrIP(from) == ip {
      RestartNackWord();
      PlainAnswers(Datagram(from, "RESTART_NACK"), ip);
    }
  }

  /** The save NACK is a plain upper-case reply that does not start with `CFG_ACK`. */
  lemma SaveFailedWord()
    ensures var m := "CFG_NACK|ERR=SAVE_FAILED"; Trimmed(m) && NoLower(m) && !HasPrefix(m, "CFG_ACK")
  {
    var m := "CFG_NACK|ERR=SAVE_FAILED";
    assert Trimmed(m) by { assert m[0] == 'C' && m[|m| - 1] == 'D'; }
    assert !HasPrefix(m, "CFG_ACK") by { assert m[..7][4] == 'N' && "CFG_ACK"[4] == 'A'; }
    assert NoLower(m) by {
      forall i | 0 <= i < |m| ensures !('a' <= m[i] <= 'z') {
      }
    }
  }

  /** The agent's save NACK never ends the configuration wait. */
  lemma SaveFailedIgnored(from: string, ip: string)
    ensures !Answers(Datagram(from, "CFG_NACK|ERR=SAVE_FAILED"), ip, CfgAckReply)
  {
    if AddrIP(from) == ip {
      SaveFailedWord();
      PlainAnswers(Datagram(from, "CFG_NACK|ERR=SAVE_FAILED"), ip);
    }
  }

  /** A text starting with an upper-case part with no blank at its ends is still read as
      starting with it. */
  lemma PrefixAnswers(d: Datagram, p: string, rest: string)
    requires d.payload == p + rest && p != [] && !IsSpace(p[0]) && !IsSpace(p[|p| - 1]) && NoLower(p)
    ensures HasPrefix(ToUpper(Reply(d)), p)
  {
    TrimSpaceKeepsPrefix(p, rest);
    UpperKeepsPrefix(TrimSpace(d.payload), p);
  }

  /** `CFG_ACK` is upper-case with no blank at its ends, and starts every ACK. */
  lemma AckWord(id: string, suffix: string)
    ensures var p := "CFG_ACK"; p != [] && !IsSpace(p[0]) && !IsSpace(p[|p| - 1]) && NoLower(p)
    ensures "CFG_ACK|ID=" + id + suffix == "CFG_ACK" + ("|ID=" + id + suffix)
  {
  }

  /** When the save succeeds, the agent's reply to a configuration request from the target
      host ends the configuration wait. */
  lemma CfgAckAccepted(raw: string, port: string, deviceId: string, o: Outcomes, from: string, ip: string)
    requires IsCfg(TrimSpace(raw)) && o.saveOk && AddrIP(from) == ip
    ensures Answers(Datagram(from, Handle(raw, port, deviceId, o).reply), ip, CfgAckReply)
  {
    var req := ParseCfgRequest(TrimSpace(raw), deviceId);
    var h := Handle(raw, port, deviceId, o);
    CfgDispatch(raw, port, deviceId, o);
    CfgHandlingCases(req, o);
    var suffix := NetSuffix(h.apply, o);
    AckWord(req.cfg.id, suffix);
    PrefixAnswers(Datagram(from, h.reply), "CFG_ACK", "|ID=" + req.cfg.id + suffix);
  }

  /** When a network writer ran and failed, the controller reports the write failure. */
  lemma NetNackReported(raw: string, port: string, deviceId: string, o: Outcomes)
    requires IsCfg(TrimSpace(raw)) && o.saveOk
    requires var h := Handle(raw, port, deviceId, o);
      (h.apply == ApplyDhcp && !o.dhcpOk) || (h.apply.ApplyStatic? && !o.staticOk)
    ensures OutcomeOf(ParseCfgAck(TrimSpace(Handle(raw, port, deviceId, o).reply))) == NetWriteFailed
  {
    var req := ParseCfgRequest(TrimSpace(raw), deviceId);
    CfgDispatch(raw, port, deviceId, o);
    CfgHandlingCases(req, o);
    var a := "CFG_ACK|ID=" + req.cfg.id;
    assert a[0] == 'C';
    NackWordAtEnd(a, "|NET_NACK");
  }

  /** `|NET_NACK` is upper-case, `|` then `NET_NACK`, and ends in a non-blank. */
  lemma NackWord()
    ensures var t := "|NET_NACK"; NoLower(t) && t == "|" + "NET_NACK" && !IsSpace(t[|t| - 1])
  {
  }

  /** An upper-case word after `a` and `b` is found at that place once the text is upper-cased. */
  lemma {:induction false} OccursAfter(a: string, b: string, w: string)
    requires NoLower(b + w)
    ensures OccursAt(ToUpper(a + (b + w)), w, |a| + |b|)
  {
    ToUpperAppend(a, b + w);
    ToUpperOfNoLower(b + w);
    assert (a + (b + w))[|a| + |b|..] == w;
  }

  /** A reply ending in `|NET_NACK` is reported as a failed write. */
  lemma NackWordAtEnd(a: string, t: string)
    requires t == "|NET_NACK" && a != [] && a[0] == 'C'
    ensures OutcomeOf(ParseCfgAck(TrimSpace(a + t))) == NetWriteFailed
  {
    NackWord();
    var r := a + t;
    assert Trimmed(r) by { assert r[0] == 'C' && r[|r| - 1] == t[|t| - 1]; }
    TrimSpaceOfTrimmed(r);
    OccursAfter(a, "|", "NET_NACK");
    assert Contains(ToUpper(r), "NET_NACK");
  }

  /** The three words a reply without a failed write must not show: long, and without `|` or `=`. */
  lemma ReportWords()
    ensures forall w :: w in ["NET_NACK", "RESTART_ACK", "RESTART_NACK"] ==> |w| >= 8 && '|' !in w && '=' !in w
  {
    var ws := ["NET_NACK", "RESTART_ACK", "RESTART_NACK"];
    forall w | w in ws ensures |w| >= 8 && '|' !in w && '=' !in w {
      assert w == ws[0] || w == ws[1] || w == ws[2];
    }
  }

  /** Upper-casing leaves fixed upper-case text around a field alone. */
  lemma {:induction false} UpperAround(p: string, s: string, q: string)
    requires NoLower(p) && NoLower(q)
    ensures ToUpper(p + s + q) == p + ToUpper(s) + q
  {
    ToUpperAppend(p + s, q);
    ToUpperAppend(p, s);
    ToUpperOfNoLower(p);
    ToUpperOfNoLower(q);
  }

  /** `CFG_ACK|ID=` is `CFG_ACK`, `|`, `ID`, `=`, and holds no lower-case letter; neither does a
      `|NET_ACK` suffix. */
  lemma {:induction false} AckPrefix(sfx: string)
    requires sfx == "" || sfx == "|NET_ACK"
    ensures var p := "CFG_ACK|ID="; NoLower(p) && NoLower(sfx) && p == "CFG_ACK" + ['|'] + "ID" + ['=']
    ensures sfx != "" ==> sfx == ['|'] + "NET_ACK"
  {
    var p := "CFG_ACK|ID=";
    assert NoLower(p) by { forall i | 0 <= i < |p| ensures !('a' <= p[i] <= 'z') {} }
    assert NoLower(sfx) by { forall i | 0 <= i < |sfx| ensures !('a' <= sfx[i] <= 'z') {} }
  }

  /** The upper-cased acknowledgement splits at its `|` and `=` into short fixed parts and the
      upper-cased record ID. */
  lemma {:induction false} AckParts(id: string, sfx: string)
    requires sfx == "" || sfx == "|NET_ACK"
    ensures var u := ToUpper(id);
      ToUpper("CFG_ACK|ID=" + id + sfx)
        == "CFG_ACK" + ['|'] + ("ID" + ['='] + (if sfx == "" then u else u + ['|'] + "NET_ACK"))
  {
    var p := "CFG_ACK|ID=";
    AckPrefix(sfx);
    UpperAround(p, id, sfx);
    SplitAck("CFG_ACK", "ID", "NET_ACK", ToUpper(id), sfx);
  }

  /** Regrouping the acknowledgement around its separators. */
  lemma {:induction false} SplitAck(a: string, b: string, n: string, u: string, sfx: string)
    requires sfx == [] || sfx == ['|'] + n
    ensures a + ['|'] + b + ['='] + u + sfx == a + ['|'] + (b + ['='] + (if sfx == [] then u else u + ['|'] + n))
  {
  }

  /** A long word without `|` or `=` is in the trimmed, upper-cased acknowledgement only when it
      is in the upper-cased record ID. */
  lemma {:induction false} AckWordAbsent(id: string, sfx: string, w: string)
    requires sfx == "" || sfx == "|NET_ACK"
    requires |w| >= 8 && '|' !in w && '=' !in w
    ensures Contains(ToUpper(TrimSpace("CFG_ACK|ID=" + id + sfx)), w) ==> Contains(ToUpper(id), w)
  {
    var r := "CFG_ACK|ID=" + id + sfx;
    var u := ToUpper(id);
    var tail := if sfx == "" then u else u + ['|'] + "NET_ACK";
    AckParts(id, sfx);
    TrimmedWord(r, w);
    ContainsAcross("CFG_ACK", '|', "ID" + ['='] + tail, w);
    ContainsAcross("ID", '=', tail, w);
    ContainsAcross(u, '|', "NET_ACK", w);
  }

  /** An acknowledgement whose record ID spells none of the three words is reported as
      "saved only". */
  lemma {:induction false} SavedOnlyAck(id: string, sfx: string)
    requires sfx == "" || sfx == "|NET_ACK"
    requires var up := ToUpper(id);
      !Contains(up, "NET_NACK") && !Contains(up, "RESTART_ACK") && !Contains(up, "RESTART_NACK")
    ensures OutcomeOf(ParseCfgAck(TrimSpace("CFG_ACK|ID=" + id + sfx))) == SavedOnly
  {
    ReportWords();
    AckWordAbsent(id, sfx, "NET_NACK");
    AckWordAbsent(id, sfx, "RESTART_ACK");
    AckWordAbsent(id, sfx, "RESTART_NACK");
  }

  /** The same for a parsed configuration request. */
  lemma {:induction false} SavedOnlyHandled(req: CfgRequest, o: Outcomes)
    requires o.saveOk
    requires var h := CfgHandling(req, o);
      (h.apply == ApplyDhcp ==> o.dhcpOk) && (h.apply.ApplyStatic? ==> o.staticOk)
    requires var up := ToUpper(req.cfg.id);
      !Contains(up, "NET_NACK") && !Contains(up, "RESTART_ACK") && !Contains(up, "RESTART_NACK")
    ensures OutcomeOf(ParseCfgAck(TrimSpace(CfgHandling(req, o).reply))) == SavedOnly
  {
    CfgHandlingCases(req, o);
    SavedOnlyAck(req.cfg.id, NetSuffix(CfgHandling(req, o).apply, o));
  }

  /** When the save succeeds, no network writer that ran failed, and the record ID does not
      itself spell a failure or a restart word, the controller reports "saved only": the agent
      never sends a restart word in its configuration reply. */
  lemma {:induction false} SavedOnlyReported(raw: string, port: string, deviceId: string, o: Outcomes)
    requires IsCfg(TrimSpace(raw)) && o.saveOk
    requires var h := Handle(raw, port, deviceId, o);
      (h.apply == ApplyDhcp ==> o.dhcpOk) && (h.apply.ApplyStatic? ==> o.staticOk)
    requires var up := ToUpper(SavedConfig(TrimSpace(raw), deviceId).id);
      !Contains(up, "NET_NACK") && !Contains(up, "RESTART_ACK") && !Contains(up, "RESTART_NACK")
    ensures OutcomeOf(ParseCfgAck(TrimSpace(Handle(raw, port, deviceId, o).reply))) == SavedOnly
  {
    CfgDispatch(raw, port, deviceId, o);
    SavedOnlyHandled(ParseCfgRequest(TrimSpace(raw), deviceId), o);
  }
}
