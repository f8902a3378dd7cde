# UDP discovery and configuration protocol: a Dafny model

The repository is a small plaintext protocol over UDP. It has two programs:

- **The agent** (`main.go`) runs on a device. It answers `TF` (discovery), `GET_ID`, the NET query words (`QUERY`, `QRY`, `QUERY_NET`, `QRY_NET`, `NET`, `GET_NET`), `CFG|…` (configure) and `RESTART`. Anything else gets `UNKNOWN_CMD`.
- **The controller** (`cmd/discover_gui/main.go`) builds the requests and parses the replies. It waits for the first matching reply from the target host, and gathers discovery replies into one device per sender.

Messages are pipe-separated `KEY=value` segments. On the agent, a configure request:

1. merges the identity fields into a stored record;
2. then writes either a DHCP network file or a static `[Network]` section, using the `upsertInSection` line editor;
3. acknowledges with `CFG_ACK|ID=…`, `|NET_ACK` or `|NET_NACK`, or with `CFG_NACK|ERR=SAVE_FAILED`.

The model is written in Dafny, one module per concern:

| module | what it holds |
|---|---|
| `Wrappers` | `Option` |
| `Text` | the Go string helpers the code relies on: `TrimSpace`, `ToUpper`, `EqualFold`, `Split`, `Join`, `Fields`, `Contains`, decimal conversion |
| `KeyValue` | one `KEY=value` segment, and the "last assignment wins" reading of a run of segments |
| `IPv4` | dotted-quad parsing and formatting, standing in for `net.ParseIP(…).To4()` |
| `Netmask` | `maskToPrefix`, `prefixToMask`, `hexLEToIPv4` |
| `Identity` | `generateUniqueID`, the `/etc/unique_ID` store, the `saveConfig` merge |
| `AgentCodec` | `parseConfig`, `parseNetKV`, `hasDHCPFlag` |
| `NetConf` | `upsertInSection` and the two network-file writers |
| `NetParams` | the `/proc/net/route` and `/etc/resolv.conf` readers, the `.network` file scan, the `getNetworkParams` fallback chain |
| `Dispatch` | the agent's command switch, as a function from request and outcomes to reply and effects |
| `ControllerCodec` | the controller's builders and parsers, and `cfgAck` with its two texts |
| `Correlation` | the controller's receive loops, over a finite sequence of datagrams |
| `Protocol` | lemmas that connect what one side writes to what the other side reads |

Code that loops or changes state is modelled imperatively:

- Each loop (parsers, scanners, the route/resolv readers, `generateUniqueID`, the receive loops) is a `method` proved equal to a specification function.
- The two files the agent keeps are classes with `modifies` clauses: `/etc/unique_ID` with `/etc/hostname`, and `device_config.json`.

Pure code is modelled as functions and lemmas.

Details of the code as written that the model keeps:

- `upsertInSection` replaces only the first matching key line of the section. Duplicate key lines already present are kept, not removed.
- A mask of prefix 0 gives the line `Address=<ip>`, with no `/0`. `applySystemdNetworkConfig` only appends a prefix when it is positive.
- `getNetworkParams` falls back to `*.network` when the `eth*.network` files yield nothing meaningful. It does not wait for those files to be absent.

Things the proofs make visible about the code as written. Each is stated by a lemma in the table below:

- The agent's `CFG_ACK` never contains `RESTART_ACK` or `RESTART_NACK`. So the controller's status and popup text for a real agent reply can only be "network write failed" or "saved only", unless the ID text itself holds those words (`Protocol.NetNackReported` for the failed write, `Protocol.SavedOnlyReported` for every other reply, `ControllerCodec.OutcomeCases`).
- With every field blank, the controller's builders send a bare `CFG` (`ControllerCodec.BlankFieldsGiveBareCfg`). The agent classifies a bare `CFG` as `UNKNOWN_CMD`, because configure needs the `CFG|` prefix (`Dispatch.UnknownIff`, `Dispatch.ClassifyFolds`). The controller's wait for `CFG_ACK` then runs until its timeout.
- `hasDHCPFlag` looks at the whole request. A static value that contains `dhcp=1` therefore turns the request into a DHCP request (`AgentCodec.HasDHCPFlagAnywhere`).
- The restart wait accepts any reply that contains `RESTART_ACK`. A `RESTART_NACK|ERR=…` whose error text contains `RESTART_ACK` would be accepted. The bare `RESTART_NACK` is proved rejected (`Protocol.BareRestartNackIgnored`).
- Some tests in the source are subsumed by others:
  - the `NET|`, `NET_IF|` and `NET ` prefix tests in `queryNetParams` are subsumed by the plain `NET` prefix test (`Correlation.NetPrefixes`);
  - the second test in `sendRestartAndWaitAck` is subsumed by the first.

## Model

| member | source | states |
|---|---|---|
| Dispatch.DeviceID | main.go:31-39 | the device ID is never empty: it is DEVICE_ID when that is set, else `HOST-<hostname>`, else `HOST-unknown` |
| Dispatch.ListenPort | main.go:26-29 | the listening port is never empty: UDP_PORT when it is set, 60000 otherwise |
| Dispatch.Classify | main.go:63-142 | the case a trimmed message takes; `Dispatch.ClassifyFolds` shows each case is taken exactly when the message folds to its word (TF, GET_ID, a NET query word, the `CFG|` prefix, RESTART), and Unknown exactly when none of them matches |
| Dispatch.Handle | main.go:63-142 | the switch on one datagram; `Dispatch.CfgCases` and `Dispatch.UnknownIff` state its `CFG|` replies and effects and that `UNKNOWN_CMD` is sent exactly for an unrecognised message |
| Dispatch.Respond | main.go:63-142 | the reply and effects per case; `Dispatch.RespondWriters` shows a network writer runs only for a saved configuration, and `Dispatch.RespondHead` that only the Unknown case replies with `UNKNOWN_CMD` |
| Dispatch.ClassifyFolds | main.go:64-141 | each request class holds exactly when its case-insensitive test in the switch holds, in switch order; Unknown exactly when no case matches |
| Dispatch.QueryFolds | main.go:79 | the six case-insensitive query comparisons are equivalent to the upper-cased message being one of the six query words |
| Dispatch.CfgIsNoWord | main.go:94 | a message with the `CFG|` prefix is never caught by an earlier case of the switch |
| Dispatch.ConfigureIsCfg | main.go:94 | classification as configure implies the `CFG|` prefix test |
| Dispatch.UnknownIff | main.go:140-141 | the reply is `UNKNOWN_CMD` exactly when the trimmed message matches none of the recognised commands |
| Dispatch.ProbeReply | main.go:65-71 | a `TF` request in any case is answered `TF|ID=<unique id>|PORT=<port>`, with no save, no network write and no restart |
| Dispatch.SavedConfig | main.go:96-100 | the saved record takes the parsed ID, or the device ID when none is given, so it is never empty when the device ID is not |
| Dispatch.CfgHandlingCases | main.go:97-130 | the configure outcome for every combination of save result, DHCP flag, meaningful static values and writer result: NACK iff the save failed, the DHCP writer iff saved and flagged, the static writer iff saved, not flagged and some value is present, and the ACK text with its NET suffix |
| Dispatch.CfgDispatch | main.go:94-131 | a configure request is handled by the configure branch on the trimmed message |
| Dispatch.CfgCases | main.go:94-131 | CfgHandlingCases stated on the raw request: the saved record, the choice of writer and the reply text in terms of parseConfig, hasDHCPFlag and parseNetKV of the trimmed message |
| Dispatch.WritersOnlyAfterSave | main.go:102-130 | a network writer runs only for a configure request whose save succeeded, and the static writer only without the DHCP flag and with some value present |
| Dispatch.RespondWriters | main.go:63-142 | the same guarantee for every branch of the switch: only configure can write network files |
| Dispatch.NetReply | main.go:82-93 | the NET reply; `Dispatch.NetReplyText` gives its text, the non-empty values in the order IP, MASK, GW, DNS then `IF` and `IFACE` (`eth0` when none), and `Protocol.NetReplyRoundTrip` shows the controller reads those values back |
| Dispatch.RestartNack | main.go:136 | the failed-reboot reply; `Dispatch.RestartNackSegments` shows it splits into exactly `RESTART_NACK` and `ERR=` with the error text, whose `|` have become `:` |
| Dispatch.NetReplyText | main.go:82-93 | the NET reply is `NET`, then each non-empty field as `|KEY=value` in IP, MASK, GW, DNS order, then `|IF=n|IFACE=n`, where n defaults to eth0 |
| Dispatch.NetReplyHead | main.go:82-93 | the NET reply starts with `N` |
| Dispatch.RestartNackSegments | main.go:136 | the restart failure reply splits into exactly `RESTART_NACK` and `ERR=<text>`, with no pipe left in the text |
| Dispatch.CfgReplyHead | main.go:102-130 | every configure reply starts with `CFG_` |
| Dispatch.RespondHead | main.go:63-142 | every recognised command's reply is non-empty and does not start with `U`, so it cannot be mistaken for `UNKNOWN_CMD` |
| AgentCodec.ParseConfig | main.go:153-177 | the loop computes ConfigOf: the `CFG|` prefix is stripped case-insensitively, and ID, IP and PORT take their last assignment, trimmed |
| AgentCodec.ConfigBody | main.go:155-158 | the body is the message without its first four characters when it starts with `CFG|` in any case, else the whole message |
| AgentCodec.ConfigAppend | main.go:159-176 | appending one segment changes exactly the field that segment assigns, and leaves the others alone |
| AgentCodec.ParseNetKV | main.go:181-202 | the loop computes NetValuesOf: everything up to the first pipe is skipped, and IP, MASK, GW and DNS take their last assignment |
| AgentCodec.ScanNetValues | main.go:188-200 | the loop over segments yields the last assignment of each of the four keys |
| AgentCodec.NetKVBody | main.go:183-187 | the body is the message itself when there is no pipe, else what follows the first pipe |
| AgentCodec.HasDHCPFlag | main.go:205-208 | the DHCP flag test; `AgentCodec.HasDHCPFlagFolds` and `AgentCodec.HasDHCPFlagAnywhere` show it ignores case and finds `dhcp=1`, `dhcp=yes` or `dhcp=true` anywhere in the request |
| AgentCodec.HasDHCPFlagFolds | main.go:205-208 | the DHCP flag test ignores case |
| AgentCodec.HasDHCPFlagAnywhere | main.go:205-208 | any occurrence of `dhcp=1`, `dhcp=yes` or `dhcp=true` in any case, anywhere in the message, sets the flag |
| KeyValue.Segment | main.go:162-167 | a segment without `=` assigns nothing; otherwise its value is trimmed |
| KeyValue.LastAssigned | main.go:168-176 | no value exactly when no segment assigns one of the keys |
| KeyValue.LastAssignedAt | main.go:168-176 | the value is that of the last segment assigning the key |
| KeyValue.LastValueConcat | main.go:161-176 | reading a concatenation gives the later run's value when it assigns the key, else the earlier run's |
| KeyValue.LastValueSkip | main.go:163-165 | a segment without `=` can be removed without changing any field |
| KeyValue.SegmentFoldsKey | main.go:166 | keys are compared after trimming and upper-casing, so keys that differ only in case or surrounding blanks assign the same field |
| KeyValue.SegmentOfPair | cmd/discover_gui/main.go:714-716 | a built `KEY=value` segment is read back as exactly (KEY, value) |
| IPv4.ParseFormat | main.go:679-682 | formatting four octets and parsing the text gives back the same four octets |
| IPv4.IsIPv4 | main.go:679-682 | the address test: the trimmed text parses as a dotted quad; `IPv4.FormatIsIPv4` shows every formatted quad passes it |
| IPv4.FormatIsIPv4 | main.go:679-682 | every formatted address passes isIPv4 |
| IPv4.FormatTrimmed | main.go:679-682 | a formatted address has no surrounding blanks |
| IPv4.ParseIPv4 | main.go:679-682 | a successful parse yields four octets below 256 |
| Netmask.MaskToPrefix | main.go:373-387 | the loop computes PrefixOf: the leading one-bits of each octet, summed, and 0 for text that is not an IPv4 address |
| Netmask.PrefixOf | main.go:373-387 | the prefix is at most 32, and 0 when the mask does not parse |
| Netmask.CountLeadingOnes | main.go:380-385 | the nested loop over octets and bits counts each octet's leading one-bits and stops at the first zero bit in that octet |
| Netmask.MaskOctets | main.go:672-677 | the mask of a prefix from 1 to 32 is four octets below 256 |
| Netmask.PrefixToMask | main.go:672-677 | the mask of a prefix from 0 to 32; `Netmask.PrefixRoundTrip` shows `maskToPrefix` gives the prefix back, and `Netmask.PrefixToMaskExamples` fixes 0, 24 and 32 |
| Netmask.PrefixRoundTrip | main.go:672-677 | maskToPrefix(prefixToMask(p)) == p for every p from 0 to 32 |
| Netmask.MaskOctetsOnes | main.go:675 | the octets of `^0 << (32 - p)` hold exactly p leading one-bits |
| Netmask.ZeroMask | main.go:674 | prefix 0 gives 0.0.0.0 |
| Netmask.PrefixToMaskExamples | main.go:672-677 | prefixes 0, 24 and 32 give 0.0.0.0, 255.255.255.0 and 255.255.255.255 |
| Netmask.HexByte | main.go:617-620 | a two-digit hex field gives a byte; a failed ParseUint gives 0 |
| Netmask.HexLEToIPv4 | main.go:614-622 | the route-table decoder; `Netmask.HexLEToIPv4Shape` shows it gives "" exactly for text not eight characters long and an IPv4 address otherwise, and `Netmask.HexLEToIPv4OfRouteHex` that it inverts the kernel encoding |
| Netmask.HexLEToIPv4Shape | main.go:614-622 | the result is empty exactly when the input is not eight characters long, and otherwise a valid IPv4 address |
| Netmask.HexLEToIPv4OfRouteHex | main.go:614-622 | the little-endian hex of an address, as the kernel writes it in the route table, decodes to that address |
| Identity.GenerateUniqueID | main.go:448-467 | the loop builds UniqueID: upper hex of the timestamp, with a leading 0, in dash-separated groups of four |
| Identity.Padded | main.go:450-453 | the padded text starts with `0`, has at least two characters and holds only upper-case hex digits |
| Identity.Chunks | main.go:456-465 | the groups concatenate back to the text; every group but the last has four characters, and the last has one to four |
| Identity.UniqueIDShape | main.go:448-467 | the ID starts with `0` and does not end with a dash; removing the dashes, or joining the dash-separated groups, gives back the padded hex; the groups have the sizes above |
| Identity.UniqueIDTrimmed | main.go:448-467 | a generated ID has no surrounding blanks |
| Identity.StoredIDStable | main.go:427-431 | a freshly written ID is what a later read returns, so the ID is stable across calls |
| Identity.IdentityFiles.constructor | main.go:424-446 | the store starts with the given ID file and hostname file |
| Identity.IdentityFiles.EnsureUniqueID | main.go:424-446 | a non-blank stored ID is returned trimmed and nothing is written. Otherwise the ID is generated and written; the hostname becomes `Kan-<id>` only after a successful write; a failed hostname write is not an error; a failed ID write returns the ID and an error, with both files unchanged |
| Identity.MergeNothing | main.go:477-485 | merging an empty request leaves the stored record unchanged |
| Identity.MergeIdempotent | main.go:477-485 | merging the same request twice equals merging it once |
| Identity.MergeTwice | main.go:477-485 | two merges in a row equal one merge of the merged requests |
| Identity.MergeFull | main.go:477-485 | a request with every field set replaces the whole record |
| Identity.ConfigFile.constructor | main.go:469-476 | the store starts with the given stored record, or none |
| Identity.ConfigFile.SaveConfig | main.go:469-491 | on a successful write, the stored record becomes the merge of the old record (or the empty record) and the request; on failure it is unchanged and the error is reported |
| NetConf.UpsertInSection | main.go:316-352 | the three loops compute Upsert, and an empty new line leaves the file unchanged |
| NetConf.Upsert | main.go:316-352 | what `upsertInSection` makes of the lines; `NetConf.UpsertEstablishes`, `NetConf.UpsertPreserves` and `NetConf.UpsertWhenHolds` show the key holds the new line afterwards, a line another key already held keeps holding, and an upsert whose line already holds changes nothing |
| NetConf.SectionStart | main.go:318-328 | the header search finds the first line whose trimmed text is the section name, or reports none |
| NetConf.NextHeader | main.go:329-335 | the section ends at the next bracketed header line, or at the end of the file |
| NetConf.KeyIndex | main.go:336-341 | the key search finds the first line inside the section whose trimmed text starts with the key |
| NetConf.SectionEnd | main.go:329-335 | the end lies after the header; every line in between is not a header; the line at the end, if any, is one |
| NetConf.UpsertReplacesFirstKey | main.go:336-341 | when the section holds the key, only its first line is replaced |
| NetConf.UpsertInsertsAtSectionEnd | main.go:344-350 | when the section lacks the key, the line is inserted just before the next header and every other line keeps its place |
| NetConf.UpsertAppendsSection | main.go:318-328 | a missing section is appended as an empty line, the header and the new line |
| NetConf.UpsertEstablishes | main.go:316-352 | after the upsert, the first key line of the section is the new line |
| NetConf.UpsertWhenHolds | main.go:316-352 | upserting a line that is already the first key line of its section changes nothing |
| NetConf.UpsertPreserves | main.go:316-352 | an upsert of another key keeps an established key line in place |
| NetConf.ApplyStaticLines | main.go:244-273 | the loop that adds a missing `[Network]` section, followed by the four upserts, computes StaticLines |
| NetConf.StaticLines | main.go:244-273 | the static rewrite of the lines; `NetConf.StaticLinesContent` shows the result has a `[Network]` section holding the Address, Gateway and DNS lines, and `NetConf.StaticLinesIdempotent` that a second rewrite with the same values changes nothing |
| NetConf.StaticLinesContent | main.go:244-273 | after the static write there is a `[Network]` section whose first DHCP line is `DHCP=no`, and whose address, gateway and DNS lines are the computed ones whenever the inputs are not blank |
| NetConf.StaticLinesIdempotent | main.go:244-273 | writing the same static settings twice gives the same lines as writing them once |
| NetConf.UpsertAllFixed | main.go:268-273 | when every computed line is already in place, the four upserts change nothing |
| NetConf.DhcpLineSet | main.go:272-273 | the static write always leaves `DHCP=no` as the section's DHCP line |
| NetConf.AddressLineKept | main.go:269-273 | the address line survives the later gateway, DNS and DHCP upserts |
| NetConf.GatewayLineKept | main.go:270-273 | the gateway line survives the later DNS and DHCP upserts |
| NetConf.DnsLineKept | main.go:271-273 | the DNS line survives the later DHCP upsert |
| NetConf.StaticLineShapes | main.go:253-266 | each computed line is either empty or starts with its key |
| NetConf.AddressLineSuffix | main.go:254-262 | the address line carries `/p` for a mask of prefix p from 1 to 32, and is the bare address for no mask or an unparsable mask |
| NetConf.EthIface | main.go:220-224 | the interface name starts with `eth`; a default-route interface is used when its name starts with `eth` |
| NetConf.StaticTarget | main.go:214-226 | the static writer's file: the first `eth*.network` match, else the file named after the default-route interface; `NetConf.SameTarget` shows the DHCP writer picks the same file |
| NetConf.StaticContent | main.go:228-277 | the text written: the static rewrite of the existing file split at newlines, or of the template for the default-route interface when there is none (`NetConf.TemplateHasNetwork` shows the template already has its `[Network]` section), joined with newlines |
| NetConf.TemplateHasNetwork | main.go:233-251 | the template for a missing file already has `[Network]`, so nothing is appended to it |
| NetConf.FixedLinesNetwork | main.go:236-241 | the template's `[Network]` header is its fourth line |
| NetConf.DhcpTarget | main.go:284-300 | an existing `eth*.network` file is the target whatever its name |
| NetConf.SameTarget | main.go:214-226 | the static and DHCP writers pick the same target file |
| NetConf.DhcpIfaceFromName | main.go:289-291 | the DHCP interface name is the file name without `.network` |
| NetConf.DhcpLines | main.go:303-310 | the DHCP file's lines; `NetConf.DhcpLinesHold` shows its `[Network]` section has `DHCP=yes` as its DHCP line |
| NetConf.DhcpLinesHold | main.go:303-310 | the DHCP file's `[Network]` section has `DHCP=yes` as its DHCP line |
| NetParams.DefaultIfaceFromRoute | main.go:355-370 | the loop computes DefaultIface: the first field of the first line after the header with at least three fields and destination 00000000 |
| NetParams.DefaultIface | main.go:355-370 | the result is empty exactly when there is no such line |
| NetParams.GatewayFromRoute | main.go:597-612 | the loop computes DefaultGatewayOf: the decoded gateway of the first default-route line whose gateway field decodes |
| NetParams.DefaultGatewayOf | main.go:597-612 | the gateway is empty or an IPv4 address |
| NetParams.DnsFromResolv | main.go:625-638 | the loop computes NameserverOf: the first `nameserver` line whose value is an IPv4 address |
| NetParams.NameserverOf | main.go:625-638 | the result is empty or an IPv4 address |
| NetParams.NameserverOfLine | main.go:630-635 | a `nameserver <address>` line yields that address |
| NetParams.FirstIPv4 | main.go:535-538 | the first IPv4 field of a DNS line is found when there is one, and none is found exactly when no field is IPv4 |
| NetParams.FirstIPv4Field | main.go:535-538 | the loop with its break computes FirstIPv4 |
| NetParams.ScanFile | main.go:521-540 | the loop over a file's lines computes ScanLines |
| NetParams.ScanConcat | main.go:523-540 | scanning two runs of lines equals scanning the first and then continuing with the second |
| NetParams.LastAddressWins | main.go:528-529 | the address kept is that of the last `Address=` line |
| NetParams.SkippedLine | main.go:524-525 | blank lines and comment lines change nothing |
| NetParams.DnsWithoutIPv4 | main.go:532-538 | a DNS line with no IPv4 field leaves the DNS value unchanged |
| NetParams.ApplyAddressTo | main.go:541-555 | the address handling computes ApplyAddress |
| NetParams.AddressRoundTrip | main.go:541-550 | an address written as `<ip>/<p>` is read back as that address with the mask of prefix p |
| NetParams.ParseNetworkFiles | main.go:516-562 | the loop over matching files computes ParseFiles |
| NetParams.FirstMeaningfulFile | main.go:556-559 | the values returned are those of the first readable file that yields any value |
| NetParams.NoMeaningfulFile | main.go:561 | when no file yields a value, all four values are empty |
| NetParams.NetworkParams | main.go:498-514 | the `getNetworkParams` fallback chain; `NetParams.EthFilesFirst` shows meaningful `eth*.network` values are never overridden, and `NetParams.LiveFallback` that with no meaningful file every field comes from the live system |
| NetParams.EthFilesFirst | main.go:500-504 | when the `eth*.network` files yield a value, the `*.network` files are never consulted, and every value they yield is kept |
| NetParams.LiveFallback | main.go:505-513 | when no file yields anything, the values come from the interface, the route table and resolv.conf |
| ControllerCodec.BuildCfg | cmd/discover_gui/main.go:712-718 | the builder loop yields `CFG`, then ID, IP and PORT as `|KEY=value`, each trimmed and left out when blank |
| ControllerCodec.CfgText | cmd/discover_gui/main.go:712-718 | the `buildCfg` request text; `ControllerCodec.BuildCfg` builds exactly it, and `ControllerCodec.BlankFieldsGiveBareCfg` shows it is the bare `CFG` when every field is blank |
| ControllerCodec.BuildNetCfg | cmd/discover_gui/main.go:721-728 | the same for IP, MASK, GW and DNS |
| ControllerCodec.NetCfgText | cmd/discover_gui/main.go:721-728 | the `buildNetCfg` request text; `ControllerCodec.BuildNetCfg` builds exactly it, and `Protocol.NetCfgRoundTrip` shows the agent reads the trimmed values back |
| ControllerCodec.BuildNetCfgWithMode | cmd/discover_gui/main.go:731-736 | DHCP mode gives exactly `CFG|DHCP=1`; otherwise the result is that of buildNetCfg |
| ControllerCodec.BlankFieldsGiveBareCfg | cmd/discover_gui/main.go:712-728 | with every field blank both builders give a bare `CFG` |
| ControllerCodec.ParseNetResponse | cmd/discover_gui/main.go:772-812 | the loop computes NetResponseOf: the head is skipped only when it starts with NET in any case, and each field takes its last assignment, where IF, IFACE, ETH, NIC, DEV, INTERFACE and IFNAME all set the interface |
| ControllerCodec.ScanResponse | cmd/discover_gui/main.go:781-810 | the loop over segments computes ResponseOf |
| ControllerCodec.ScanSegment | cmd/discover_gui/main.go:782-809 | one round of the loop computes the response of the longer run |
| ControllerCodec.ResponseAppend | cmd/discover_gui/main.go:782-809 | one more segment changes only the field its key selects; a segment without `=`, or with an unknown key, changes nothing |
| ControllerCodec.ResponseHead | cmd/discover_gui/main.go:773-781 | a head starting with NET in any case is dropped; any other head is read as a segment |
| ControllerCodec.LastIfaceWins | cmd/discover_gui/main.go:795-808 | the interface comes from the last segment with any of the seven interface keys |
| ControllerCodec.SegmentWithoutEqualsIgnored | cmd/discover_gui/main.go:782-783 | a segment without `=` can be removed without changing the response |
| ControllerCodec.AddressKeysAreNotIfaceKeys | cmd/discover_gui/main.go:786-808 | the four address keys are none of the interface keys |
| ControllerCodec.AddrIP | cmd/discover_gui/main.go:973-979 | the host part is never longer than the address |
| ControllerCodec.AddrIPOfHostPort | cmd/discover_gui/main.go:973-979 | `host:port` gives host when the port has no colon |
| ControllerCodec.ParseDiscovery | cmd/discover_gui/main.go:953-971 | the loop computes DeviceOf: the sender's host, the last ID, and the last PORT or 60000 |
| ControllerCodec.DiscoveryAppend | cmd/discover_gui/main.go:957-969 | one more segment sets ID or PORT when it assigns that key and leaves the rest; an empty PORT becomes 60000; keys ignore case |
| ControllerCodec.ParsePort | cmd/discover_gui/main.go:981-987 | the result is the default or a port from 1 to 65535, and the latter only when a decimal integer was scanned |
| ControllerCodec.ScanInt | cmd/discover_gui/main.go:984 | `Sscanf` with `%d`; `ControllerCodec.ParsePort` accepts a port only when the scan gives it, and `ControllerCodec.ParsePortOfDec`, `ControllerCodec.ParsePortSkipsBlank`, `ControllerCodec.ParsePortNewline` and `ControllerCodec.ParsePortUnderscore` fix how it reads numerals, blanks and what follows |
| ControllerCodec.ParsePortOfDec | cmd/discover_gui/main.go:981-987 | a decimal port from 1 to 65535, followed by anything but a digit or underscore, is returned as that port |
| ControllerCodec.ParsePortSkipsBlank | cmd/discover_gui/main.go:984 | leading blanks and tabs are skipped by the scan |
| ControllerCodec.ParsePortNewline | cmd/discover_gui/main.go:984 | a leading newline makes the scan fail, so the default is returned |
| ControllerCodec.ParsePortUnderscore | cmd/discover_gui/main.go:984 | digits followed by an underscore are not an integer, so the default is returned |
| ControllerCodec.TextsAgree | cmd/discover_gui/main.go:880-904 | StatusText and PopupText take the same branch: each picks its phrase for one common outcome |
| ControllerCodec.ParseCfgAck | cmd/discover_gui/main.go:870-878 | the four words looked for in the upper-cased reply; `ControllerCodec.OutcomeCases` states which outcome each combination of words gives |
| ControllerCodec.StatusText | cmd/discover_gui/main.go:880-891 | the status-bar text; `ControllerCodec.TextsAgree` shows it is the phrase of the acknowledgement's outcome |
| ControllerCodec.PopupText | cmd/discover_gui/main.go:893-904 | the popup text; `ControllerCodec.TextsAgree` shows it is the phrase of the same outcome as the status bar |
| ControllerCodec.OutcomeCases | cmd/discover_gui/main.go:870-904 | NET_NACK anywhere means write failed; NET_ACK with RESTART_ACK means restart OK; NET_ACK with RESTART_NACK and no RESTART_ACK means restart failed; case is ignored |
| Correlation.FirstAnswer | cmd/discover_gui/main.go:825-833 | the index found is the first datagram that answers the wait; no earlier one does; none found means no datagram does |
| Correlation.NetPrefixes | cmd/discover_gui/main.go:764 | the four NET prefix tests are together equivalent to the plain NET prefix |
| Correlation.QueryNetParams | cmd/discover_gui/main.go:746-769 | the result is the parse of the first reply from the target host whose upper-cased text starts with NET, or none when the replies run out |
| Correlation.SendCfgAndWaitAck | cmd/discover_gui/main.go:815-834 | the result is the first reply from the target host starting with CFG_ACK in any case, or none |
| Correlation.SendRestartAndWaitAck | cmd/discover_gui/main.go:837-861 | the result is the first reply from the target host containing RESTART_ACK in any case, or none |
| Correlation.OtherHostIgnored | cmd/discover_gui/main.go:761 | a reply from another host never ends a wait |
| Correlation.CollectKeys | cmd/discover_gui/main.go:931-944 | the map holds one entry per distinct sender of a kept reply, and no other |
| Correlation.CollectLast | cmd/discover_gui/main.go:942 | a sender's entry comes from that sender's last kept reply |
| Correlation.FoundKeys | cmd/discover_gui/main.go:931-944 | the discovered map's keys are exactly the senders of `TF|` replies, and its size is their number |
| Correlation.FoundLast | cmd/discover_gui/main.go:938-943 | each sender's device is parsed from that sender's last `TF|` reply |
| Correlation.CollectReplies | cmd/discover_gui/main.go:930-944 | the receive loop builds the discovered map |
| Correlation.Devices | cmd/discover_gui/main.go:945-950 | the slice holds each map entry exactly once, in some order |
| Correlation.Discover | cmd/discover_gui/main.go:916-951 | the broadcast goes to parsePort(port, 60000); the result lists one device per distinct `TF|` sender, each from its last reply |
| Protocol.NetCfgJoin | cmd/discover_gui/main.go:721-728 | buildNetCfg is `CFG` joined by pipes with the non-blank trimmed segments |
| Protocol.NetCfgRoundTrip | main.go:181-202 | parseNetKV of buildNetCfg gives back the four trimmed inputs, for values without a pipe |
| Protocol.NetValuesOfJoin | main.go:181-202 | parseNetKV of `CFG` and pipe-free segments reads the segments' last assignments |
| Protocol.BodyAfterHead | main.go:183-188 | skipping to the first pipe of a pipe-joined message leaves exactly the segments after the head |
| Protocol.NetSegmentsFields | cmd/discover_gui/main.go:721-728 | the optional segments of four trimmed values are read back as those values |
| Protocol.NetReplyRoundTrip | cmd/discover_gui/main.go:772-812 | parseNetResponse of the agent's NET reply gives back its four values and its interface name, which defaults to eth0 |
| Protocol.NetReplyJoin | main.go:82-93 | the NET reply is `NET` joined by pipes with the value segments and the two interface segments |
| Protocol.NetHeadSkipped | cmd/discover_gui/main.go:773-781 | the `NET` head of a joined reply is skipped by parseNetResponse |
| Protocol.ResponseOfJoin | cmd/discover_gui/main.go:772-812 | a NET reply built from value segments and interface segments parses to those values |
| Protocol.IfaceSegmentValues | main.go:91-92 | the `IF=n|IFACE=n` tail sets the interface to n and none of the four values |
| Protocol.ProbeAnswerShape | main.go:71 | the discovery answer is trimmed and starts with `TF|` in any case, so the controller keeps it |
| Protocol.ProbeAnswerSplit | main.go:71 | the discovery answer splits into `TF`, `ID=<id>` and `PORT=<port>` |
| Protocol.ProbeAnswerDiscovered | cmd/discover_gui/main.go:938-970 | the controller reads the agent's discovery answer as the sender's host, the agent's port (or 60000 if empty) and its ID |
| Protocol.ProbeHandledAndDiscovered | main.go:65-71 | the agent's reply to `TF` is a discovery reply that the controller reads as this device |
| Protocol.DhcpRequestShape | cmd/discover_gui/main.go:731-734 | the DHCP request is a configure request with the DHCP flag set and no identity fields |
| Protocol.DhcpRequestHandled | main.go:94-116 | the agent saves the device ID alone for a DHCP request, runs the DHCP writer only after a successful save, and replies NACK, or ACK with NET_ACK or NET_NACK |
| Protocol.DhcpHandled | main.go:94-116 | the same for any configure request with the DHCP flag and no identity fields |
| Protocol.PlainAnswers | cmd/discover_gui/main.go:825-860 | for a trimmed upper-case reply from the target, the restart wait accepts it exactly when it contains RESTART_ACK, and the CFG wait exactly when it starts with CFG_ACK |
| Protocol.RestartAckAccepted | cmd/discover_gui/main.go:853-855 | the agent's `RESTART_ACK` from the target ends the restart wait |
| Protocol.BareRestartNackIgnored | cmd/discover_gui/main.go:853-858 | a bare `RESTART_NACK` never ends the restart wait |
| Protocol.SaveFailedIgnored | cmd/discover_gui/main.go:830-832 | the agent's `CFG_NACK|ERR=SAVE_FAILED` never ends the CFG wait |
| Protocol.CfgAckAccepted | cmd/discover_gui/main.go:828-832 | every reply the agent sends to a configure request after a successful save ends the CFG wait |
| Protocol.NetNackReported | cmd/discover_gui/main.go:880-883 | when the agent's network write fails after a save, the controller reports "network write failed" |
| Protocol.SavedOnlyAck | cmd/discover_gui/main.go:870-891 | an acknowledgement `CFG_ACK|ID=…` with no suffix or `|NET_ACK`, whose upper-cased ID holds none of `NET_NACK`, `RESTART_ACK`, `RESTART_NACK`, is reported as "saved only" |
| Protocol.SavedOnlyReported | cmd/discover_gui/main.go:880-891 | when the save succeeds, no network writer that ran failed, and the saved ID spells none of those words, the controller reports "saved only" for the agent's reply |
| Protocol.OptionalNetRun | main.go:181-202 | an optional segment assigns only its own key |
| Protocol.LastOfRuns | main.go:189-200 | the value read from four runs of segments is that of the last run that assigns it |

## Left out

- Sockets are not modelled:
  - `ListenPacket`, `ReadFrom`, `WriteTo` and `ListenUDP`, with their errors;
  - the 2048-byte receive buffer;
  - the broadcast address and `sendUDP`.
  
  A request is a string, and the controller's receive loops take the finite sequence of datagrams that arrive before the deadline.
- Time: `time.Now().UnixMilli()` is the parameter `ts` of `GenerateUniqueID`. Timeouts are the end of the datagram sequence.
- The filesystem is not modelled. File contents are inputs: a missing or unreadable file is `None`, a glob is a sequence of files, and each write's success is a boolean. The writes are `ConfigFile`, `IdentityFiles` and the `writeOk` and `Outcomes` flags.
- `os.Getenv` and `os.Hostname` values are parameters of `Dispatch.DeviceID` and `Dispatch.ListenPort`.
- Foreign calls whose results are parameters (`Outcomes`):
  - `restartHost` and `restartNetworkd`, which run `exec`;
  - `ipMaskFromInterfaces`, `netmaskFromIPNet` and the interface enumeration in `ifaceName`.
  
  `restartNetworkd` is not called by the switch.
- The JSON encoding of `device_config.json`. An unreadable or undecodable record is the empty record.
- `net.ParseIP` is modelled as strict IPv4 dotted-quad parsing: one to three digits per octet, no leading zeros, values at most 255. IPv6 and IPv4-mapped IPv6 text are not modelled.
- Text handling:
  - Case mapping is ASCII only.
  - Blanks are Go's Unicode white space for `TrimSpace` and `Fields`.
  - Length and indexing count characters, not UTF-8 bytes. This matters only for non-ASCII text.
- `strconv.Atoi` in the prefix of an `Address=` line is `Text.Atoi`: an optional `+` or `-` then decimal digits, as Go reads them. Go's range error for numbers beyond 64 bits is not modelled. It cannot change the result, because only prefixes 0 to 32 are accepted (main.go:547).
- Identity.GenerateUniqueID: the timestamp `ts` is a `nat`, so a negative `UnixMilli`, for which `FormatInt` would write a leading `-`, is not represented (main.go:450).
  - `ControllerCodec.ParsePort` does model `Sscanf("%d")` signs, underscores, leading blanks and the 64-bit range.
- Correlation.Devices: the order in which Go ranges over a map is unspecified. The union of all orders is modelled by a choice, so the result is stated as a listing of the map, not a fixed order.
- `filepath.Join`, `Base` and `Glob` are simplified: a fixed directory, the final path element, and a given sequence of matches.
- Not modelled at all:
  - the GUI;
  - the i18n texts (a `Phrases` record is the parameter);
  - the loading indicator;
  - `isDevicePageOnline`;
  - `log` output;
  - the never-ending server loop. One request at a time is modelled by `Dispatch.Handle`.
