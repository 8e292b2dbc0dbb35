# Verification model of the stateful XDP/TC firewall

This project models the parts of the firewall whose correctness depends on state, arithmetic or wire
formats, and proves what they keep.

- **The packet programs.** `tc_egress_record` writes a conntrack entry for every outgoing TCP/UDP packet,
  with a DPI class and an attempt counter packed into one byte; `xdp_fw` parses incoming packets, looks up
  the mirrored entry, consults two blocklists and decides. `Dataplane` holds both programs as methods of one
  class that read raw bytes and update the maps in place; `Firewall` says what one packet does in terms of
  frames, keys and classes; the methods are proved against it. Further
  modules then reason about every interleaving of outgoing packets, incoming packets, blocklist and rule
  changes and LRU evictions: `FirewallRuns` and `AnswerRuns` (what is let in), `ConntrackRuns` and
  `InspectionRuns` (classes, and what goes to the ring buffer), `EntryRuns` (which entries exist), `BanRuns`,
  `FlowRuns` and `LimiterRuns` (bans, counters, rates), `AlarmRuns` (fuse and attack mode). `FrameBuilding`
  proves the parsers against frames as a sender builds them, `StatusWords` what user space can tell from a
  status word.
- **The limiters.** The fuse, the three token buckets and the attack-mode timer, with the 64-bit wrap-around
  written out. The per-flow bucket is modelled twice: one call at a time, and as the interleaving of the
  atomic steps of any number of CPUs.
- **The user-space cores.** The single-producer/single-consumer ring queue, the JA3 ClientHello reader and
  string printer, the CIDR index, the exporter frames from C++ to Go, the fixed-width risk file, and the
  SYN-cookie rewrite with its incremental checksum.

Integers are mathematical; every width, wrap and cast of the source is explicit (`Wrap32`, `Wrap64`,
`Sub64` and the subset types of `Machine`). Imperative code is modelled by classes and methods with loops,
each proved equal to a function; the theorems are about those functions.

Where a property that one would expect fails, the project proves exactly when it holds:

- XDP lets in only answers to packets that were sent exactly when port 0 is not allowed and TC reads right
  every packet that may go out (`AnswerRuns.OnlySentAnsweredIff`). Either half can fail: with port 0 allowed
  a TCP or UDP fragment reaches the port check with zeroed ports and leaves a conntrack entry
  (`FirewallRuns.PortZeroLetsIn`); and TC does not look at the fragment offset, so that it takes the payload
  of an outgoing later fragment for ports and opens a flow nobody used (`AnswerRuns.LateFragmentLetsIn`). An
  untagged packet is read right exactly when TC passes it over or it is unfragmented with a complete transport
  header (`AnswerRuns.ReadRightIff`). Answers to flows that TC has opened, rightly or not, are all XDP lets in
  exactly when port 0 is not allowed (`FirewallRuns.OnlyAnswersIff`).
- A ban is in force for exactly five minutes exactly when its end does not pass the end of the 64-bit clock
  (`BanRuns.InForceIff` for one ban, `BanRuns.BannedIff` in a run with renewals); `BanRuns.LastInstantFails`
  gives a packet whose ban never takes effect.
- Attack mode keeps to the documented cooldown exactly for the scores whose product does not wrap
  (`AttackMode.OnExactlyIff`, `AttackMode.NeverReturnsIff`); `AttackMode.WrappedScoreFails` gives the first
  score with which both fail.
- The JA3 reader stays inside its buffer except for an odd cipher length that ends with the payload
  (`Ja3Parsing.FaultIff`, for the cipher loop access by access); `Ja3Parsing.TruncatedFaults` gives 47 bytes
  on which it does not.
- Bytes behind a ClientHello leave its fingerprint alone exactly when the hello has an extension block or
  they spell nothing that counts (`ClientHello.TrailHarmlessIff`): the handshake length is not looked at.
  `ClientHello.TrailMisread` gives six bytes that change it for every hello without extensions.
- The exporter stays in step with its reader exactly for frames of fewer than 2^32 bodies
  (`ExporterRoundTrip.InStepIff`); with 2^32 the count wraps to zero (`ExporterRoundTrip.WrappedCount`).
- The risk file gives back a configuration exactly when its strings fit (`RiskFile.SurvivesIff`); an address of
  256 bytes does not (`RiskFile.LongUrlIsCut`).
- On a clock that only moves forward the credit of the flow bucket, and what it passes, keep to the time
  spanned in all runs exactly when at most one CPU works on it (`FlowBucketCpus.CreditIff`,
  `FlowBucketCpus.StrictIff`). With two, one may read the clock, be overtaken and compute a negative
  difference that wraps, or debit while another still owes a debit back. If nobody is overtaken the credit
  keeps to the time for any number of CPUs (`FlowBucketSteps.CreditBound`), what passes still does not.
- A rate bucket refuses exactly what it should if and only if the product of idle time and rate does not wrap
  or fills it all the same (`TokenBucket.RefusedIff`); `TokenBucket.StarvedAfterIdle` gives a bucket that
  refuses one byte after eighteen idle seconds at a gigabyte per second.

The two BPF objects share three maps only (`src/user/config/xdp_fw_config.hpp:185-187`), so TC looks up
destinations in a permanent blocklist of its own, which nothing fills. The model keeps the two lists apart;
with TC's list empty no flow is ever classified as blocklisted (`ConntrackRuns.AsShipped`).

Code and documentation disagree once: `docs/dpi.md:21` says that a packet without a conntrack entry passes
as pending, while `src/ebpf/policy.h:367-371` drops it. The model follows the code.

## Model

| member | source | states |
|---|---|---|
| `AnswerRuns.OnlySentAnsweredIff` | src/ebpf/trace_connect.c:97-111 | For every set of allowed ports and every set of packets that may go out: in all runs from an empty conntrack table XDP passes a TCP/UDP packet only if a whole packet of the mirrored flow was sent earlier and its entry not evicted since, if and only if port 0 is not allowed and TC reads every one of those packets right |
| `AnswerRuns.ReadRightIff` | src/ebpf/trace_connect.c:80-111 | TC reads an untagged IPv4 packet right, as the whole TCP/UDP packet its bytes spell, if and only if TC passes the packet over, or it is no fragment and its transport header is complete |
| `AnswerRuns.LateFragmentLetsIn` | src/ebpf/trace_connect.c:97-111 | As soon as a certain outgoing UDP fragment of 38 bytes may go out, whatever the ports: it and one packet from outside make a run after loading in which XDP passes a packet of a flow of which none was sent |
| `FirewallRuns.OnlyAnswersIff` | src/user/main.cpp:134-137 | For every set of allowed ports: in all runs from an empty conntrack table XDP passes a TCP/UDP packet only if TC opened the mirrored flow in an earlier step, going by its own reading of an outgoing packet, and the entry was not evicted since, if and only if port 0 is not in the set |
| `FirewallRuns.OnlyAnswersWithoutPortZero` | src/ebpf/policy.h:217-275 | The positive half: without port 0 every packet let in belongs to a flow that TC opened, over any interleaving |
| `FirewallRuns.PortZeroLetsIn` | src/ebpf/policy.h:552-553 | With port 0 allowed there is a run of two packets from the state after loading, a fragment and a whole packet, in which XDP passes a packet nobody inside asked for |
| `FirewallRuns.EntriesOpened` | src/ebpf/trace_connect.c:97-113 | While port 0 is not allowed, in every run from an empty table each conntrack entry goes back to an outgoing packet that TC read as one of that flow, after its last eviction |
| `FirewallRuns.XdpAddsNothing` | src/ebpf/policy.h:259-273 | While port 0 is not allowed no incoming packet adds or removes a conntrack entry: record_established never creates one |
| `FirewallRuns.XdpKeepsClasses` | src/ebpf/policy.h:233-243 | No incoming packet removes an entry or changes its class byte or TLS version, new entries are unclassified, and only the nine stored bytes occur afterwards |
| `FirewallRuns.Step` | src/ebpf/trace_connect.c:319-329 | Every event of a run keeps every stored class byte among 0, 1, 2, 0x13, 0x23, 0x33, 0x43, 0x53 and 0x54 |
| `FirewallRuns.XdpFrame` | src/ebpf/xdp_fw.c:141-255 | All an incoming packet can touch of the lists and tables: the port, rule and permanent lists never, the bans only for its own source, the conntrack table only by refreshing or recording the mirrored flow |
| `ConntrackRuns.PassIffDecision` | src/ebpf/policy.h:340-394 | An unfragmented IPv4 TCP/UDP packet passes the whole XDP pipeline if and only if its transport header is complete, its source is not permanently blocked, no ban on it is active now, and the mirrored flow has an entry that is not blocklisted |
| `ConntrackRuns.ParsersAgree` | src/ebpf/trace_connect.c:85-111 | TC and XDP, each with its own parser, read the same five-tuple from the same untagged IPv4 bytes; what only one of them accepts is a fragment or cut off |
| `ConntrackRuns.AnswersPass` | src/ebpf/policy.h:366-393 | After TC opened a flow to a host that is not on TC's own list, its answers pass at any later point of the run short of an eviction, exactly when XDP's permanent list does not name the host and no temporary ban on it is active then |
| `ConntrackRuns.NeverBlocklisted` | src/ebpf/trace_connect.c:193-204 | In every run a flow to a host outside TC's own list is never classified as blocklisted |
| `ConntrackRuns.AsShipped` | src/user/config/xdp_fw_config.hpp:184-187 | In every run after loading, TCP/UDP packets pass if and only if their source is on neither list of XDP's and the mirrored flow has an entry: the blocklisted class never occurs |
| `ConntrackRuns.EgressMoves` | src/ebpf/trace_connect.c:115-184 | One outgoing packet moves a class only as the state machine allows: pending to the next attempt on a submission, from the fifth to done, settled classes nowhere |
| `ConntrackRuns.StepMoves` | src/ebpf/trace_connect.c:113-184 | The same for every event of a run other than the eviction of that flow |
| `ConntrackRuns.SubmissionsBounded` | src/ebpf/trace_connect.c:132-140 | In every run, the ring-buffer submissions of a flow since its last eviction are at most the attempts counted in its byte, which are at most five |
| `ConntrackRuns.SubmissionsCost` | src/ebpf/trace_connect.c:181-182 | Submissions plus the remaining budget never grow between evictions, from any state |
| `ConntrackRuns.RankDecreases` | src/ebpf/trace_connect.c:45-50 | The ranking function of the class never grows in a step and falls on every submission |
| `ConntrackRuns.SettledStays` | src/ebpf/trace_connect.c:118-123 | Ignore, blocklisted and done are absorbing until eviction, and nothing of such a flow is submitted |
| `InspectionRuns.FreshFlow` | src/ebpf/trace_connect.c:186-329 | On bytes: a TCP/UDP packet of a flow without a lasting class writes 0x02 for a host on TC's list, 0x13 for a ClientHello to TCP port 443 or 80, 0x00 for another TCP packet there, 0x01 for all else; nothing else changes, and an event goes out exactly for 0x13 with room |
| `InspectionRuns.PendingFlow` | src/ebpf/trace_connect.c:128-183 | A flow at 0x13 to 0x43 moves to the next byte and submits an event exactly with payload and room; at 0x53 it moves to 0x54 without one |
| `InspectionRuns.SettledFlow` | src/ebpf/trace_connect.c:118-123 | A flow at 0x01, 0x02 or 0x54 only has its time noted |
| `InspectionRuns.NoFlow` | src/ebpf/trace_connect.c:80-105 | Packets that are not IPv4 TCP/UDP with ports change and submit nothing |
| `InspectionRuns.EventIs` | src/ebpf/trace_connect.c:150-180 | The event holds the packet from byte 14 on up to 2000 bytes, its time and its five-tuple, which can be read again from what is held; direction 1 on all but the first |
| `InspectionRuns.SubmissionsExact` | src/ebpf/trace_connect.c:128-183 | In every run a flow with n attempts has exactly its next 5 - n packets with payload and room submitted: none missed, none too many |
| `InspectionRuns.FirstFive` | src/ebpf/trace_connect.c:226-329 | So a flow that starts with a ClientHello and room has its first five such packets submitted |
| `EntryRuns.EntryIff` | src/ebpf/policy.h:233-243 | In every run from an empty table a flow has a conntrack entry if and only if a packet used it since its last eviction, and the entry bears the time of the last use |
| `EntryRuns.TlsMarkedAlways` | src/ebpf/trace_connect.c:319-329 | The TLS version is 1 exactly in entries whose hello was seen, at any point of a run |
| `EntryRuns.SpanStep` | src/ebpf/stats.h:60-129 | A flow entry keeps the time of the packet that made it and takes that of each packet it counts |
| `BanRuns.BannedIffExceeds` | src/ebpf/policy.h:306-320 | An incoming packet changes the bans if and only if it runs into its own flow limit without an exempting rule, and then it bans its own source from now on and nobody else |
| `BanRuns.BannedIff` | src/ebpf/policy.h:355-365 | In such a run the source is banned at a time in [t, t + 300 s) if and only if the end of the last ban before that time does not exceed 2^64 |
| `BanRuns.BannedIsDropped` | src/ebpf/policy.h:355-365 | After such a ban at time t, every TCP/UDP packet of that source is dropped at all times in [t, t + 300 s), in every run where user space and eviction leave the entry alone, renewals included, as long as the end of the last ban fits the clock |
| `BanRuns.InForceIff` | src/ebpf/policy.h:314-317 | A ban set at t is active exactly at the times in [t, t + 300 s) if and only if t + 300 s does not exceed 2^64 |
| `BanRuns.FragmentExceeds` | src/ebpf/policy.h:305-318 | Whenever port 0 is allowed: a 34-byte fragment of a new flow with a burst of 20 bytes exceeds its limit at any time, and its source is banned then if and only if the end of the ban does not exceed 2^64 |
| `BanRuns.LastInstantFails` | src/ebpf/policy.h:311-317 | The same fragment at the last instant of the clock exceeds its limit, yet its source is not banned |
| `BanRuns.BanEnds` | src/ebpf/policy.h:358-359 | From the end of an unrenewed ban on, the verdict on every TCP/UDP packet of the source is the one it would get without the entry |
| `BanRuns.ListedIff` | src/ebpf/policy.h:345-353 | In every run the permanent list holds exactly the addresses user space blocked and did not unblock since |
| `BanRuns.ListedIsDropped` | src/ebpf/policy.h:345-353 | While it does, every TCP/UDP packet of the source is dropped |
| `FlowRuns.VerdictIff` | src/ebpf/xdp_fw.c:166-255 | The verdict on every packet in one decision: ARP and unknown ethertypes pass, IPv6, ICMP and malformed packets drop, TCP/UDP follows conntrack and blocklists, fragments and other protocols follow packet rate, addresses and ports; fuse, byte limits and attack mode decide nothing, and XDP_TX never occurs |
| `FlowRuns.LateVerdict` | src/ebpf/xdp_fw.c:188-255 | Fragments and other protocols pass if and only if the packet rate and the addresses allow it and either no flow entry is met or the ports are allowed, whatever the global and flow limits say |
| `FlowRuns.XdpCounts` | src/ebpf/stats.h:118-129 | An incoming packet touches the counters of its own flow only, and counts exactly when it passes and meets an entry |
| `FlowRuns.CountersExact` | src/ebpf/stats.h:60-129 | In every run the counters of every flow are the packets and bytes passed since its entry was last evicted, modulo 2^64 |
| `LimiterRuns.PacketRateCharged` | src/ebpf/xdp_fw.c:187-192 | Each fragment or packet of another protocol is charged to the packet rate once, by one token, and nothing else is |
| `LimiterRuns.PacketRateHolds` | src/ebpf/policy.h:177-199 | In every run on a forward clock that ends by t, XDP passes at most tokens + floor(limit (t - stamp) / 10^9) such packets |
| `LimiterRuns.OutcomeIs` | src/ebpf/policy.h:249-324 | What the policy says about a packet: port miss, global refusal, flow refusal or pass, each exactly when the checks before let it get there and its own bucket decides so |
| `LimiterRuns.GlobalCharged` | src/ebpf/policy.h:294-303 | Each packet that gets to the limits and has no rule is charged to the global bucket once, by its length, and nothing else is |
| `LimiterRuns.GlobalRateHolds` | src/ebpf/policy.h:112-143 | In every run the bytes that get through the global limit by t are at most tokens + floor(rate (t - stamp) / 10^9) |
| `LimiterRuns.FlowCharged` | src/ebpf/policy.h:281-321 | A flow's bucket is charged once for each of its packets that gets to it, at the rate and burst of its rule, its entry or the configuration, which stay in force |
| `LimiterRuns.FlowRateHolds` | src/ebpf/policy.h:148-175 | While entry and rule are left alone, the bytes of a flow that get through its limit by t are at most tokens + floor(rate (t - stamp) / 10^9) |
| `LimiterRuns.NewFlowIsFull` | src/ebpf/stats.h:76-112 | A new flow starts with a full bucket: its first packet gets through exactly if it is no longer than the burst |
| `AlarmRuns.AlarmStep` | src/ebpf/policy.h:429-441 | Each complete ICMP packet is charged to the fuse once, each refusal trips the timer at its own time, every packet with a link layer looks at it, and nothing else touches either |
| `AlarmRuns.FuseFollows` | src/ebpf/policy.h:26-66 | In every run the fuse is the one called at the times of the ICMP packets |
| `AlarmRuns.IcmpBound` | src/ebpf/policy.h:26-66 | From t1 to t2 it spares at most 2500 ICMP packets and five per millisecond that ends in between |
| `AlarmRuns.ModeAfterTrip` | src/ebpf/stats.h:26-58 | In every run: after an ICMP packet the fuse refused, and until the next, every packet finds attack mode on exactly while less than min(60 s, 5 s + floor(score/1000) s) has passed, the score being the old one plus one |
| `Dataplane.Programs.constructor` | src/user/main.cpp:511-522 | After loading the maps are empty, fuse, global bucket and timer at zero, the packet-rate bucket full, with the loaded ports |
| `Dataplane.Programs.TcEgressRecord` | src/ebpf/trace_connect.c:80-331 | The TC program on raw bytes does to the maps what `Firewall.TcStep` says, touches only the conntrack table, and submits, when the step says so, one event with addresses, ports, protocol, time, direction and the bytes from layer 3 on, at most 2000 |
| `Dataplane.Programs.RecordFlow` | src/ebpf/trace_connect.c:113-331 | The branch on the nibbles of the stored byte agrees with the step told by classes |
| `Dataplane.Programs.Continue` | src/ebpf/trace_connect.c:128-183 | A pending flow: give up after five attempts, skip packets without payload or without ring-buffer room, else count one more attempt and submit |
| `Dataplane.Programs.ClassifyNew` | src/ebpf/trace_connect.c:187-329 | A new or unknown flow is blocklisted, ignored, unknown or pending by TC's own list, port, protocol and the opening bytes of its payload; the first event carries no direction |
| `Dataplane.Programs.Capture` | src/ebpf/trace_connect.c:160-176 | The event holds addresses, ports, protocol and time of the packet, and the packet from layer 3 on, cut at 2000 bytes |
| `Dataplane.Programs.CheckConntrackAndBlacklist` | src/ebpf/policy.h:340-394 | It returns only -1, 1 or 3, the code and the full status word (action, stage, reason) that lists, bans and class call for; an admitted packet refreshes its entry and changes nothing else |
| `Dataplane.Programs.SwitchOnClass` | src/ebpf/policy.h:373-393 | The switch on the raw class byte of an existing entry: 1 passes and refreshes, 2 drops and leaves the entry alone, all others pass as pending and refresh |
| `Dataplane.Programs.EnforceIcmp` | src/ebpf/policy.h:418-482 | For ICMP it always refuses; the fuse is charged once, a blown fuse trips the attack timer; the status word names the fuse, else attack mode, else stays |
| `Dataplane.Programs.ParsePacketAndFloodProtect` | src/ebpf/policy.h:487-725 | On any bytes: return code, full status word, key and payload length are those of the specification, and only conntrack table, fuse and attack timer change |
| `Dataplane.Programs.ParseLink` | src/ebpf/policy.h:497-513 | Ethernet header and tags: it fails exactly when they are cut off, else type and position are those the bytes give |
| `Dataplane.Programs.ParseByType` | src/ebpf/policy.h:519-710 | The switch on the ethertype: ARP returns 1 with no word, IPv6 and unknown types -1, only IPv4 goes on |
| `Dataplane.Programs.ParseNetwork` | src/ebpf/policy.h:528-710 | The same from the IPv4 header on, with the cursor only moving forward inside the packet |
| `Dataplane.Programs.TcpCase` | src/ebpf/policy.h:561-632 | The TCP branch: a cut-off header is refused, else ports are added to the key and the check decides |
| `Dataplane.Programs.UdpCase` | src/ebpf/policy.h:634-685 | The UDP branch: a cut-off header is refused, else ports are added to the key and the check decides; the payload length is the one UDP claims, less its header |
| `Dataplane.Programs.IcmpCase` | src/ebpf/policy.h:687-703 | The ICMP branch: whatever was refused, the word says bad packet; the fuse is charged only for a complete header |
| `Dataplane.Programs.VerifyBroadcastAndPolicy` | src/ebpf/xdp_fw.c:60-97 | Passes exactly for a source that is neither broadcast nor multicast and a destination that is neither multicast nor the subnet broadcast, limited broadcasts to port 67 alone excepted |
| `Dataplane.Programs.LookupOrCreateFlow` | src/ebpf/stats.h:60-116 | An existing flow is left alone, a missing one is created with a full bucket unless the table refuses |
| `Dataplane.Programs.RefillFlow` | src/ebpf/policy.h:150-167 | The refill of the flow bucket, called alone, equals the bucket specification |
| `Dataplane.Programs.ConsumeFlowTokens` | src/ebpf/policy.h:148-175 | Called alone it charges exactly this flow's bucket with the flow's own rate and burst before the configured ones |
| `Dataplane.Programs.RecordEstablished` | src/ebpf/policy.h:217-244 | The mirrored entry is refreshed with its class untouched, or created unclassified |
| `Dataplane.Programs.ApplyPolicy` | src/ebpf/policy.h:249-324 | Port check, recording and limits leave the state and the status word the specification gives |
| `Dataplane.Programs.ApplyLimits` | src/ebpf/policy.h:277-323 | A rule sets the flow's limits and skips the global bucket; an unruled flow over its limit is banned |
| `Dataplane.Programs.ApplyOpenLimits` | src/ebpf/policy.h:295-323 | Without a rule the global bucket is charged first and its refusal decides; then the flow bucket, whose refusal bans the source |
| `Dataplane.Programs.UpdateFlowStats` | src/ebpf/stats.h:118-129 | The counters grow with 64-bit wrap-around for this flow and no other |
| `Dataplane.Programs.LaterStages` | src/ebpf/xdp_fw.c:188-255 | From the packet-rate limit on: packets over the packet rate or with refused addresses drop, a port miss drops, and a packet over a byte limit keeps the action computed before the policy |
| `Dataplane.Programs.FlowStages` | src/ebpf/xdp_fw.c:212-254 | A missing flow is created with a full bucket; when the table refuses the packet keeps its action, unchecked |
| `Dataplane.Programs.PolicyStages` | src/ebpf/xdp_fw.c:222-254 | With a flow entry: a port miss drops and counts nothing, everything else keeps the action and is counted |
| `Dataplane.Programs.XdpFw` | src/ebpf/xdp_fw.c:141-255 | The XDP program on raw bytes gives the state and the verdict of `Firewall.XdpStep` |
| `Headers.HdrCursor.ParseEth` | src/ebpf/parser.h:38-53 | Succeeds exactly with 14 bytes; the cursor never moves back or past the end |
| `Headers.HdrCursor.ParseVlanStack` | src/ebpf/parser.h:77-96 | Skips at most two tags, refuses a cut-off one, and ends where the offset specification says |
| `Headers.HdrCursor.ParseIpv4` | src/ebpf/parser.h:123-147 | Succeeds exactly on a complete header of at least five words, and stops at its end |
| `Headers.HdrCursor.ParseTcp` | src/ebpf/parser.h:154-198 | Succeeds exactly on a complete header; the payload length discounts padding after the length IPv4 claims |
| `Headers.HdrCursor.ParseEight` | src/ebpf/parser.h:205-238 | UDP and ICMP: eight bytes or refusal |
| `Headers.PortlessPorts` | src/ebpf/policy.h:552-553 | Fragments and other protocols carry zero ports into the later stages |
| `FrameBuilding.ReadsWhatIsBuilt` | src/ebpf/parser.h:38-238 | For every IPv4 header with options, payload, and up to two tags as a sender builds them, the frame read is the one meant (ports from the first four payload bytes, big-endian, only of unfragmented packets with a complete header) and the payload length noted is the one the headers claim |
| `FrameBuilding.TagsTransparent` | src/ebpf/parser.h:77-96 | Up to two 802.1Q or 802.1ad tags with any contents change nothing about how a frame is read |
| `FrameBuilding.ThirdTag` | src/ebpf/parser.h:77-96 | With a third the frame passes for an unknown ethertype |
| `FrameBuilding.LinkCut` | src/ebpf/parser.h:38-96 | A frame cut off before the end of its ethertype is a bad link |
| `FrameBuilding.NetworkCut` | src/ebpf/parser.h:123-147 | One cut off in its IPv4 header is a bad network packet |
| `FrameBuilding.HeaderTooShort` | src/ebpf/parser.h:132-136 | So is one whose header claims fewer than five words |
| `DpiState.NibbleAndByteAgree` | src/ebpf/policy.h:374-393 | On stored bytes the raw switch of XDP and the nibble switch of TC tell the same classes apart |
| `DpiState.AttemptsAdvance` | src/ebpf/trace_connect.c:134-181 | Counting one more attempt and giving up both stay among the stored bytes and decode to the next class |
| `DpiState.FirstBytes` | src/ebpf/trace_connect.c:321 | The bytes written for new flows |
| `StatusCode.PackUnpack` | src/ebpf/fw_status_code.h:69-76 | Unpacking undoes packing for all parts in their own bits, and packing undoes unpacking for all words |
| `StatusWords.CheckVerdict` | src/ebpf/policy.h:340-394 | The word of the check resolves to a pass exactly for admitted packets, in step with its code |
| `StatusWords.ParseVerdict` | src/ebpf/policy.h:487-725 | Code and word of the parsing stage agree with the verdict; a negative code beside a passing word occurs exactly for unknown ethertypes |
| `StatusWords.StepVerdict` | src/ebpf/xdp_fw.c:160-179 | The verdict on every packet in terms of the parsing stage: code 0 goes on to the later stages, a negative code takes what the word resolves to, any other passes |
| `StatusWords.CheckCause` | src/ebpf/fw_status_code.h:69-76 | From the unpacked word of the check user space can tell which list refused (stages 4 and 5, reasons 0x20 and 0x21), and for the conntrack stage 3 whether the flow is ignored (0x61), blocklisted (0x62) or has no entry (0x60) |
| `StatusWords.ParseCause` | src/ebpf/policy.h:487-725 | What unpacks from every other word of the parsing stage, and its code: stage 1 with one reason for bad packets and ICMP and one for what is not supported, no word for ARP, unknown ethertypes and fragments |
| `StatusWords.PolicyCause` | src/ebpf/policy.h:249-324 | What unpacks from the word of the policy: stages 6, 7 and 8 tell port miss, global and flow limit apart, and only a port miss has reason 0x30 |
| `Fuse.FuseBucket.Trigger` | src/ebpf/policy.h:35-66 | The lazy refill with remainder carry does what adding 5 tokens tick by tick, capped at 2500, says, for every clock reading including a wrapped difference |
| `Fuse.AdmitsIff` | src/ebpf/policy.h:35-66 | In closed form: a call is admitted exactly when the tokens held, plus five per whole millisecond since the stamp, at most 2500, come to one or more; the first call fills the fuse and is free |
| `Fuse.LazyIsEager` | src/ebpf/policy.h:26-66 | For every call sequence on a non-decreasing clock the fuse gives the verdicts of a bucket that really ticks every millisecond from the first stamp, and ends in the matching state |
| `Fuse.StampAdvances` | src/ebpf/policy.h:51-54 | The carried remainder is exactly the stamp moved on by whole intervals, modulo 2^64 |
| `Fuse.AdmissionsPaid` | src/ebpf/policy.h:35-66 | Admissions in a window are paid from the tokens held at its start and the ticks inside it |
| `Fuse.WindowBound` | src/ebpf/policy.h:35-66 | Whatever happened before, admissions in any (t1, t2] are at most 2500 + 5 per tick in between |
| `Fuse.BurstExact` | src/ebpf/policy.h:35-66 | Of calls in one millisecond exactly as many are admitted as there are tokens |
| `TokenBucket.GlobalBucket.Consume` | src/ebpf/policy.h:112-143 | The global byte bucket in place equals its specification, the first packet free |
| `TokenBucket.PpsBucket.Consume` | src/ebpf/policy.h:177-199 | The packet-rate bucket in place equals its specification |
| `TokenBucket.PassedBound` | src/ebpf/policy.h:148-175 | From any tokens T and stamp L, at a fixed rate on a non-decreasing clock, the bytes passed by t are at most T + floor(rate (t - L) / 10^9), wrapping products included |
| `TokenBucket.GlobalBound` | src/ebpf/policy.h:112-143 | The same for the global bucket, from any tokens and any positive stamp |
| `TokenBucket.GlobalFromFirst` | src/ebpf/policy.h:118-123 | From its first packet on: the burst plus the credit since then |
| `TokenBucket.PpsBound` | src/ebpf/policy.h:177-199 | The same for the packet-rate bucket, from any tokens and stamp, the full bucket it starts with included |
| `TokenBucket.BurstPasses` | src/ebpf/policy.h:129-175 | Tokens in hand are honoured: calls that they cover pass, all of them, at any times and rate |
| `TokenBucket.GlobalOpensFull` | src/ebpf/policy.h:118-123 | The first packet passes the global bucket whatever its length, and so does every burst after it that fits into one bucket |
| `TokenBucket.PpsPassesIff` | src/ebpf/policy.h:177-199 | A packet passes the packet rate if and only if the limit is positive and tokens plus credit, with both products wrapped, are neither 0 nor 2^64; it takes one token |
| `TokenBucket.RefillNeverOverCredits` | src/ebpf/policy.h:126-127 | Reducing the product modulo 2^64 before dividing never credits more |
| `TokenBucket.RefillExactIff` | src/ebpf/policy.h:126-127 | The refill is the credit earned if and only if the product stays below 2^64 |
| `TokenBucket.ConfiguredNeverWraps` | src/ebpf/types.h:317-322 | With 32-bit bursts the token addition itself never wraps and the tokens stay within the burst |
| `TokenBucket.RefusedFor` | src/ebpf/policy.h:129-142 | With the refill as computed: a call is refused exactly when the clamped sum does not cover it; a pass takes its cost from that sum, a refusal only credits, and the stamp moves when there is credit |
| `TokenBucket.RefusedIff` | src/ebpf/policy.h:129-142 | At any time and rate a bucket within its 32-bit burst refuses exactly what tokens and earned credit do not cover, if and only if the product of idle time and rate stays below 2^64 or what is left of it fills the bucket; it never passes what they do not cover |
| `TokenBucket.StarvedAfterIdle` | src/ebpf/policy.h:126-142 | An empty bucket that refuses one byte after idling long enough to have earned eighteen gigabytes |
| `FlowBucketSteps.ConservationFromStart` | src/ebpf/policy.h:148-175 | In every interleaving of any number of CPUs the shared word is, modulo 2^64, initial + credited - clamped - passed - debits not yet given back |
| `FlowBucketSteps.SwapsFormOneChain` | src/ebpf/policy.h:152-160 | If no CPU works on a stamp later than its clock reading, the successful compare-and-swaps form one chain in time |
| `FlowBucketSteps.CreditBound` | src/ebpf/policy.h:152-167 | Then, for any number of CPUs, all credit, won or added, is at most rate (last - first) / 10^9 |
| `FlowBucketCpus.CreditIff` | src/ebpf/policy.h:151-160 | For every number n of CPUs: in all runs on a forward clock credit keeps to the time spanned if and only if n is at most 1 |
| `FlowBucketCpus.OvertakenOvercredits` | src/ebpf/policy.h:151-160 | For any number of CPUs from two on there is a run on a forward clock at one byte per second that credits 18 446 744 073 bytes in one second |
| `FlowBucketCpus.StrictIff` | src/ebpf/policy.h:148-175 | For every number n of CPUs: all runs on a forward clock, from any tokens and stamp at any rate, pass at most the initial tokens plus the credit of the time spanned if and only if n is at most 1; the same among the runs in which no CPU is overtaken |
| `FlowBucketCpus.OverlapOverdraws` | src/ebpf/policy.h:169-172 | For any number of CPUs from two on there is a run on a forward clock, nobody overtaken, that passes a byte from an empty bucket at rate 0 |
| `FlowBucketSteps.SoloCallIsTake` | src/ebpf/policy.h:148-175 | A call running alone through the atomic steps is the sequential bucket |
| `AttackMode.AttackTimer.Check` | src/ebpf/stats.h:26-58 | Looking at the timer in place equals its specification, score reset included |
| `AttackMode.AttackTimer.Blow` | src/ebpf/policy.h:430-441 | A blown fuse stamps the timer and counts one more |
| `AttackMode.TripIsSeenIff` | src/ebpf/policy.h:430-441 | Whatever the timer said before: after a trip at now every later look is on exactly while less than min(60 s, 5 s + floor(score/1000) s) has passed since now, the score being the old one plus one modulo 2^64, if and only if now is not 0 and the score does not wrap short before the clock ends |
| `AttackMode.CooldownIsPromised` | src/ebpf/stats.h:43-47 | The computed cooldown is min(60 s, 5 s + floor(score/1000) s) exactly for scores whose product does not wrap short |
| `AttackMode.OnExactlyIff` | src/ebpf/stats.h:43-51 | From any state: for every sequence of looks on a non-decreasing clock, each, also after one that reset the score, is on exactly while less than the promised cooldown has passed, if and only if there was a trip and its score does not wrap short before the clock ends |
| `AttackMode.LooksFollowCooldown` | src/ebpf/stats.h:43-57 | Looks in any number follow the computed cooldown, if that is at least the base five seconds |
| `AttackMode.OrdinaryScores` | src/ebpf/stats.h:43 | Scores below 18 446 744 069 000 are never of that kind |
| `AttackMode.FirstWrappingScore` | src/ebpf/stats.h:43 | That score wraps short, to a cooldown of 0.29 s |
| `AttackMode.OffStaysOff` | src/ebpf/stats.h:53-57 | Once the score is reset after the base cooldown, every later look finds the mode off |
| `AttackMode.NeverReturnsIff` | src/ebpf/stats.h:49-57 | Once off the mode stays off until the next trip, despite the reset, if and only if there was no trip, or 5 s + floor(score/1000) s modulo 2^64 is at least five seconds or lies behind the end of the clock |
| `AttackMode.WrappedScoreFails` | src/ebpf/stats.h:43-57 | After a trip that brings the score to 18 446 744 069 000 both fail: the mode goes off too early, and the look that finds it off brings it back |
| `SpscQueue.Queue.constructor` | src/user/util/LockFreeSPSCQueue.hpp:22-23 | For any capacity of at least 1 the queue starts empty |
| `SpscQueue.Queue.Push` | src/user/util/LockFreeSPSCQueue.hpp:25-35 | Accepts exactly while fewer than capacity - 1 items are held and appends at the end of the contents |
| `SpscQueue.Queue.Pop` | src/user/util/LockFreeSPSCQueue.hpp:37-46 | Answers the oldest item and removes exactly it, or nothing when empty |
| `SpscQueue.StepLinearized` | src/user/util/LockFreeSPSCQueue.hpp:25-46 | Every single load, buffer access or store of either side keeps the invariant that ties the ring to a FIFO queue |
| `SpscQueue.Linearizable` | src/user/util/LockFreeSPSCQueue.hpp:25-46 | For every interleaving and capacity the answers, full and empty included, are those of a FIFO queue of at most capacity - 1 items, which the ring holds exactly |
| `SpscQueue.NothingLost` | src/user/util/LockFreeSPSCQueue.hpp:25-46 | The popped values followed by the held ones are the accepted pushes in order; a slot being written is never the one being read |
| `SpscQueue.SoloPush` | src/user/util/LockFreeSPSCQueue.hpp:25-35 | An uninterrupted push in the step machine is the method |
| `SpscQueue.SoloPop` | src/user/util/LockFreeSPSCQueue.hpp:37-46 | An uninterrupted pop in the step machine is the method |
| `Ja3Parsing.IsGreaseValue` | src/user/servie/impl/L7DpiEngine.cpp:16-18 | The mask test recognises exactly the sixteen values reserved by section 2 of RFC 8701 |
| `Ja3Parsing.GreaseIff` | src/user/servie/impl/L7DpiEngine.cpp:16-18 | The reserved values are 0x0A0A + 0x1010 k for k from 0 to 15 |
| `Ja3Parsing.NoGreaseIs` | src/user/servie/impl/L7DpiEngine.cpp:58-61 | The filter decides on each value alone and keeps the order |
| `Ja3Parsing.ComputeJa3Client` | src/user/servie/impl/L7DpiEngine.cpp:35-117 | On any bytes the offset-driven loops terminate and give the empty string, the string before hashing, or the out-of-bounds read, exactly as the declarative reading of the record says |
| `Ja3Parsing.ReadSuites` | src/user/servie/impl/L7DpiEngine.cpp:57-61 | The cipher loop access by access: it fails at the first access past the payload if there is one, else pushes the words that are not GREASE |
| `Ja3Parsing.ReadWords` | src/user/servie/impl/L7DpiEngine.cpp:58-61 | The word loop pushes the decimals of the words that are not GREASE, in order |
| `Ja3Parsing.WalkBlock` | src/user/servie/impl/L7DpiEngine.cpp:74-100 | The extension walk collects types, curves and formats as the recursive reading of the block does, and terminates |
| `Ja3Parsing.JoinStrings` | src/user/servie/impl/L7DpiEngine.cpp:103-110 | The join loop puts the separator between the parts and nowhere else |
| `Ja3Parsing.FaultIff` | src/user/servie/impl/L7DpiEngine.cpp:52-61 | A payload makes the reader look past its end exactly when its odd cipher length ends where the payload ends; every even length is safe |
| `Ja3Parsing.EmptyIff` | src/user/servie/impl/L7DpiEngine.cpp:36-67 | The empty string comes back exactly for payloads that are no ClientHello record or are cut off before the length of the compression methods |
| `Ja3Parsing.CurvesAre` | src/user/servie/impl/L7DpiEngine.cpp:83-90 | Of supported groups, well-formed or not, the words behind the list length are read, as many as it claims and as are there |
| `Ja3Parsing.FormatsAre` | src/user/servie/impl/L7DpiEngine.cpp:92-97 | Of point formats likewise the bytes |
| `Ja3Parsing.LoopFitsIff` | src/user/servie/impl/L7DpiEngine.cpp:58-61 | All accesses of the cipher loop, taken one by one, fall inside the payload exactly when its length is even or ends before the payload does |
| `Ja3Parsing.TruncatedFaults` | src/user/servie/impl/L7DpiEngine.cpp:52-61 | 47 bytes that make it do so |
| `Ja3Printing.SplitJoin` | src/user/servie/impl/L7DpiEngine.cpp:103-110 | Splitting undoes joining for parts without the separator |
| `Ja3Printing.ReadBack` | src/user/servie/impl/L7DpiEngine.cpp:112-115 | From the string, version and all four lists can be read back, empty lists included |
| `Ja3Printing.Unambiguous` | src/user/servie/impl/L7DpiEngine.cpp:112-115 | Two field sets give the same string if and only if they are equal |
| `Ja3Printing.DecimalIsShort` | src/user/servie/impl/L7DpiEngine.cpp:60 | Numbers are printed without leading zeros |
| `ClientHello.ParseInvertsEncode` | src/user/servie/impl/L7DpiEngine.cpp:35-101 | For every ClientHello (section 4.1.2 of RFC 8446, section 7.4.1.2 of RFC 5246) on the wire, with any record header, lengths not looked at, and any bytes behind it, the reader finds its version, its cipher, extension and curve lists without GREASE and its point formats, in order; without an extension block it reads the bytes behind it as one |
| `ClientHello.TrailHarmlessIff` | src/user/servie/impl/L7DpiEngine.cpp:69-101 | Bytes behind a hello change nothing the reader finds if and only if the hello has an extension block, or they spell no extension but GREASE, no curve and no format |
| `ClientHello.TrailMisread` | src/user/servie/impl/L7DpiEngine.cpp:69-81 | Six bytes behind it that change what is read of every hello without extensions |
| `ClientHello.TornHello` | src/user/servie/impl/L7DpiEngine.cpp:69-101 | Of a hello cut off inside its extensions, or whose block claims to end there, exactly the whole extensions before the cut are read |
| `ClientHello.SameFingerprintIff` | src/user/servie/impl/L7DpiEngine.cpp:35-115 | Two hellos have the same string if and only if version and the four filtered lists agree |
| `ClientHello.GreaseInvariant` | src/user/servie/impl/L7DpiEngine.cpp:57-96 | Inserting GREASE ciphers, GREASE curves or GREASE extensions of any content anywhere never changes the string |
| `SynCookie.TriggerSyncookieChallenge` | src/ebpf/policy.h:71-107 | -2 exactly unless SYN is set and ACK, RST and FIN are clear, else -99 exactly without a valid cookie, else 777; on 777 the segment becomes the rewritten one, else it is untouched |
| `SynCookie.CarriesCookie` | src/ebpf/policy.h:87-99 | The rewritten segment carries the cookie in bytes 4 to 7, and no byte but those and 16 and 17, the checksum, changes |
| `SynCookie.AllOnesIff` | src/ebpf/policy.h:91-99 | A one's-complement sum folds to all ones exactly for positive multiples of 65535 |
| `SynCookie.TwoFoldsSuffice` | src/ebpf/policy.h:97-98 | Two folds of the five-term accumulator keep its residue in 16 bits |
| `SynCookie.RewriteKeepsVerdict` | src/ebpf/policy.h:91-99 | For every segment length, cookie and pseudo-header the rewritten segment verifies if and only if the original did (section 3 of RFC 1624) |
| `CidrIndex.RiskIndicators.AddCidrRange` | src/user/config/RiskIndicators.hpp:86-138 | Whatever inet_pton and std::stoi answer: the text is split at its first slash, the parsed range inserted under its mask; number, prefix and address are checked in this order, each throwing its own error and leaving the index alone |
| `CidrIndex.SlashSplits` | src/user/config/RiskIndicators.hpp:89-99 | Address and number are what stands before and behind the first slash |
| `CidrIndex.ParsesIff` | src/user/config/RiskIndicators.hpp:86-110 | A text is accepted if and only if its address converts and it has no slash or a number from 0 to 32 behind it; which error the others get |
| `CidrIndex.RiskIndicators.IsMatchCidr` | src/user/config/RiskIndicators.hpp:168-175 | The loop over the masks finds a match exactly when some mask has the masked address |
| `CidrIndex.Masked` | src/user/config/RiskIndicators.hpp:108-110 | Anding with a prefix mask rounds down to a multiple of 2^(32 - prefix), for all prefixes 0 to 32 |
| `CidrIndex.CoversIff` | src/user/config/RiskIndicators.hpp:108-110 | For every accepted text with address a and prefix p the masked comparison holds exactly for the v with a - a mod 2^(32 - p) <= v < a - a mod 2^(32 - p) + 2^(32 - p) |
| `CidrIndex.NetworkIsAligned` | src/user/config/RiskIndicators.hpp:110 | A range starts at a multiple of its size and holds the address it was written with |
| `CidrIndex.MatchIffCovered` | src/user/config/RiskIndicators.hpp:135-175 | After any sequence of insertions, bad ones included, an address matches if and only if it lies in the block of some well-formed text among them |
| `FixedFields.CStrReads` | src/user/config/RiskFileUpdater.cpp:276-289 | A strncpy of width - 1 into a zeroed field reads back as the string cut at its first NUL and at width - 1 |
| `FixedFields.TrimReads` | cmd/exporter/main.go:159 | bytes.Trim reads back what strncpy kept, and what memcpy copied of a string without NULs |
| `FixedFields.TrimIs` | cmd/exporter/main.go:159 | Trimming takes all NULs off both ends and nothing else |
| `FixedFields.KeptIff` | src/user/config/RiskFileUpdater.cpp:276-289 | A field keeps a string exactly when it has no NUL and is shorter than the field |
| `RiskFile.RiskFileUpdater.RiskConfigToBinary` | src/user/config/RiskFileUpdater.cpp:271-293 | The file is the header with the list's own count followed by the records |
| `RiskFile.RiskFileUpdater.BinaryToRiskConfig` | src/user/config/RiskFileUpdater.cpp:242-268 | Reading any file gives the header's strings and count and that many records, zeros where the file is short; a field without NUL runs on into the fields behind it, and the method says so when it runs past its structure |
| `RiskFile.TextIs` | src/user/config/RiskFileUpdater.cpp:242-268 | A text read is the bytes up to the first NUL, wherever that stands |
| `RiskFile.LoadsIff` | src/user/config/RiskFileUpdater.cpp:242-268 | No read runs past its structure if and only if every string of the header and of as many records as it announces finds a NUL in time |
| `RiskFile.HeaderLayout` | src/user/config/SyncRiskFileConfig.hpp:29-34 | Address, time, count and reserve stand at bytes 0, 256, 320 and 328 |
| `RiskFile.RecordLayout` | src/user/config/SyncRiskFileConfig.hpp:21-27 | The k-th record stands at 360 + 137 k, its fields at 0, 8, 72, 104 and 136 |
| `RiskFile.WriteThenRead` | src/user/config/RiskFileUpdater.cpp:242-293 | Reading what was written gives the same count and records with every string cut to its field |
| `RiskFile.SurvivesIff` | src/user/config/SyncRiskFileConfig.hpp:20-35 | A configuration survives unchanged if and only if all strings are NUL-free and shorter than their fields and its count was right |
| `RiskFile.LongUrlIsCut` | src/user/config/RiskFileUpdater.cpp:276-289 | A configuration whose address of 256 bytes comes back with 255 |
| `RiskFile.SecondTripIsIdentity` | src/user/config/RiskFileUpdater.cpp:242-293 | A second write and read changes nothing more |
| `ExporterFrames.ExporterService.SendBpftrace` | src/user/servie/ExporterService.hpp:240-278 | What is sent is one type-1 frame of the snapshot, header count cast to 32 bits, or as much of it as got through before a send failed, which it reports |
| `ExporterFrames.ExporterService.SendKsmEvents` | src/user/servie/ExporterService.hpp:284-347 | The same for a type-2 frame, a bare header when there is no event |
| `ExporterFrames.ExporterService.SendBodies` | src/user/servie/ExporterService.hpp:266-277 | The loop sends the concatenation of the bodies up to the first failure |
| `ExporterReader.Reader.ReadBody` | cmd/exporter/main.go:153-164 | One body is read and joins the entry of its trimmed domain, counts added with 64-bit wrap-around |
| `ExporterReader.Reader.ReadAndProcessBpfData` | cmd/exporter/main.go:146-171 | The metrics are reset first; the summary is processed only if every announced body could be read |
| `ExporterReader.Reader.ReadAndProcessKsmData` | cmd/exporter/main.go:174-194 | Every complete event is processed in order, also when the frame is cut off |
| `ExporterReader.Reader.ReadFrame` | cmd/exporter/main.go:123-141 | One round: header, unknown type, cut-off bodies and whole frames lead to the calls, the answer and the position of the specification |
| `ExporterReader.Reader.ReadLoop` | cmd/exporter/main.go:111-143 | On any bytes and cancelled in any round, the loop makes exactly the calls of the declarative decoding, says whether it was cancelled, and stops at its last frame boundary |
| `ExporterRoundTrip.InStepIff` | src/user/servie/ExporterService.hpp:261-264 | After a frame the reader looks for the next header right behind it if and only if the frame has fewer than 2^32 bodies |
| `ExporterRoundTrip.WrappedCount` | src/user/servie/ExporterService.hpp:261-264 | After a frame of 2^32 bodies the reader looks for the next header right behind the first one |
| `ExporterRoundTrip.FrameBack` | cmd/model/msg.go:8-28 | A frame of either type reads back as its entries, byte layout of both sides agreeing |
| `ExporterRoundTrip.CountKept` | cmd/exporter/main.go:192 | A file event's count arrives unchanged exactly below 2^63, and modulo 2^64 always |
| `ExporterRoundTrip.HeaderLayout` | src/user/model/Common.h:9-12 | A frame starts with 1 or 2 and its count modulo 2^32, little-endian |
| `ExporterRoundTrip.MetricLayout` | src/user/model/Common.h:14-20 | Label, domain, addresses and count stand at bytes 0, 32, 64, 80 and 96 |
| `ExporterRoundTrip.EntryLayout` | src/user/model/Common.h:23-29 | Process, command, path, direction and count stand at bytes 0, 4, 20, 276 and 280 |
| `Machine.LeDigit` | cmd/exporter/main.go:123-182 | The k-th byte of a number on the wire is its k-th digit to the base 256 |
| `ExporterRoundTrip.SelfSynchronising` | src/user/servie/ExporterService.hpp:240-347 | Decoding the concatenation of any finite sequence of frames gives exactly their records in order, up to the round of the cancellation, and ends on a header boundary; uncancelled, with nothing left |
| `ExporterRoundTrip.CutOff` | src/user/servie/ExporterService.hpp:240-347 | When the sender fails anywhere inside a frame, the reader gets every whole frame before it and of that one only the reset or the events that came whole |
| `ExporterRoundTrip.TextBack` | src/user/model/Common.h:14-29 | NUL-free text arrives as the text cut to its field |
| `ExporterRoundTrip.SummaryAddsUp` | cmd/exporter/main.go:150-165 | For any bodies: a domain is in the summary exactly when some body has it, its count is the sum modulo 2^64, and the rest is that of its last body |

## Left out

- One timestamp per packet: the programs read the clock several times while handling a packet; the model reads it once.
- Per-CPU copies: the fuse and the global bucket are per-CPU maps; the model is one CPU's copy. Look-ups in array maps never fail.
- Concurrency of the packet programs: one packet is one atomic step, so races between CPUs on a conntrack byte or on a non-atomic bucket are not modelled. The flow bucket's atomics are, in `FlowBucketSteps`.
- Memory ordering: the accesses of the ring queue and of the flow bucket are sequentially consistent in the model; the queue's are relaxed in the source, so reordering by the hardware is outside the proof.
- Code behind check_conntrack_and_blacklist in the TCP and UDP branches (enforcement, the SYN-cookie call) is never reached, since that function returns only -1, 1 or 3; it is not in `Dataplane`. The SYN-cookie function is modelled alone, its cookie an arbitrary number.
- Output only: event emission by XDP, sampling, stat counters, packet counters of global_stats, logging, the layer-7 report to user space. Of the direction in TC's first event, which the source leaves uninitialised, only that it is not set is modelled.
- Start-up: init_gconfig_and_gmap, loading and pinning, parsing of ports and sizes. The configuration is a constant and the port list does not change during a run.
- Special ports and the whitelist rules are modelled; the unused is_tls_payload, parse_mpls and egress port list are not.
- MD5: the JA3 result is the string before hashing. The out-of-bounds read of an odd cipher length is an explicit outcome and is not followed further.
- inet_pton and std::stoi are arbitrary functions in `CidrIndex`: what they accept is not modelled. The IPv6 and exact-address sets of RiskIndicators are left out.
- RiskFile.RiskFileUpdater.BinaryToRiskConfig: of a string that runs past the end of its structure nothing is promised but the method's answer; reserving memory for a huge count is not modelled.
- Sockets: how long a call blocks, deadlines and reconnects. The bytes that get through before a send fails, and the bytes that arrive before a read does, are arbitrary. A Go map's iteration order is left open by handing over the summary as one map.
- L7FlowManager, nDPI, TLS reassembly, the HTTP API, dashboards and the process manager: library-bound or without invariants of their own.
