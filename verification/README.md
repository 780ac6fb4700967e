# Mirage-rs: a verified model

This project models the parts of Mirage-rs whose correctness rests on state, loops and arithmetic,
and proves what they promise for every input, every run and every interleaving:

- **Record layer** (`Records`, `RecordLayer`, `RecordTheorems`, `RecordReceive`, `RecordSafety`,
  `PaddingScheme`, `SchemeGrammar`, `Negotiation`, `Ciphers`). `Records` defines what a sender and a receiver do as functions on
  states; `RecordLayer` holds the two classes with their fields and loops, proved against those
  functions. The AEAD is a pair of functions with the law that opening undoes sealing; a key is
  named by its HKDF info string; every random draw is an input. The layout is that of sections 5.2
  and 5.4 of RFC 8446.
- **Config fragments** (`Fragments`, `FragmentFiles`, `Tags`, `Reachability`, `Listing`,
  `MergeTheorems`, `MergeResult`, `MergeMeaning`, `BuiltinMeaning`, `NodeMeaning`, `MergeOrder`,
  `MergeOrderExact`, `ExportTheorems`, `ExportResult`). Outbounds are a datatype; the regex engine behind a group filter is a parameter.
- **Reference cycles and static hosts** (`Cycles`, `ReferenceGraph`, `StaticHosts`, `Ordering`).
- **Authentication rate limiter** (`RateLimit`, `RateTheorems`, `RateInterleaving`, `RateBound`,
  `RateLockout`, `RateSweeping`). Time is a natural number; requests that interleave between check
  and note are runs of single steps.
- **Packet logic** (`Handover`, `Checksums`, `DnsNames`), after RFC 1071, RFC 1624 section 3 and
  RFC 1035 section 3.1.
- **Bookkeeping** (`Registry`, `RegistryTheorems`, `Netlink`), the latter after section 2.3.2 of
  RFC 3549.

`dafny verify dfyconfig.toml` checks everything.

## What the proofs show about the code

- Whether a fragment group lands can depend on the order of the groups: two groups with one tag
  make `remap` point at whichever comes last (`MergeOrder.OrderCanMatter`). For distinct groups the
  result is independent of their order if and only if no two of them would choose the same name when
  named first (`MergeOrderExact.OrderFreeIff`); and any clash shows in which names are present under
  some member lists (`MergeOrderExact.ClashMovesLanding`).
- The cycle check does not list every cycle: it reports one for each edge that closes one, but for
  rotations. Every cycle shares an edge with a reported one, so a config without the references on
  reported cycles has none (`ReferenceGraph.DetectCycles`).
- A reference to a direct or block can end at a proxy node, when a fragment node shares its tag and
  the config already has it (`BuiltinMeaning.DirectBecomesNode`), although the comment at
  `src/bin/mirage.rs:1196-1197` means to rule out references to the wrong kind; exactly when it keeps
  its kind is `BuiltinMeaning.BuiltinReferenceIff`.
- A reference to a node can end elsewhere too: a group under its tag takes it over, and so does a
  direct or block that has to be renamed (`NodeMeaning.GroupTakesReference`); exactly when the node
  keeps it is `NodeMeaning.NodeNameIff` and `NodeMeaning.NodeReferenceIff`.
- The limiter is unlocked between the lock check and the note (`src/api/mod.rs:201-246`), and a note
  keeps the time read before the check. Ten failures in a window therefore need not lock: the window
  counts all of them if and only if no settle of the address and no sweep has read a time past it
  (`RateLockout.CountsAllIff`; `RateLockout.TenFailuresWithoutLock` is a run that does not lock). And
  the lock lasts its full cooldown if and only if all that settles late fails, inside the window, and
  read its time no earlier than the tenth failure (`RateInterleaving.LockoutIff`;
  `RateInterleaving.LateSettlesBreakLock` shows the three ways to lose it). `RateLockout.TenFailuresIff`
  joins the two.
- For the same reason sweeping can be observed. It cannot if and only if no step needs a record that
  has been swept (`RateSweeping.SweepingUnnoticedIff`), in particular if no step keeps a time older
  than a sweep before it (`RateSweeping.SweepingInvisibleInFlight`).
- Ten failures in a window are exceeded as soon as two requests of an address can be in flight. With
  up to k in flight, 9 + k can share a window; `RateBound.FailureBoundInFlight` gives the bound over
  runs and `RateBound.BoundAttained` shows that it is attained for every k.
- `parse_padding_scheme` accepts targets that are too small for the cipher negotiation frames. Both
  ends agree under every draw if and only if each sender is past its scheme or its next range starts
  at 4 or more, for the NEGO frame, and at 3 or more, for the ACK frame
  (`Negotiation.NegotiationAlwaysAgrees`); with a first target of 1 the server receives nothing
  (`Negotiation.TinyTargetLosesNego`).
- The same parser accepts schemes under which one send of a single byte exceeds the writer's buffer
  (`RecordSafety.TinyTargetsOverflow`); a relay buffer fits under the default scheme
  (`RecordSafety.PaddedRelayBufferFits`).
- The user-space hash agrees with the kernel's on a name if and only if no label contains a dot
  (`DnsNames.UserSpaceAgrees`).
- `should_bump` bounds the route check by the buffer, not by the message: a route message with fewer
  than 2 payload bytes is judged by a byte of its padding or of its neighbour
  (`Netlink.ShortRouteJudgedByNeighbour`).

## Model

| member | source | states |
|---|---|---|
| `RecordLayer.CryptoWriter.constructor` | src/crypto/aead.rs:106-124 | A new writer is a bootstrap-cipher sender with counters at zero and nothing written. |
| `RecordLayer.CryptoWriter.Rekey` | src/crypto/aead.rs:137-146 | From the bootstrap cipher, a request for AES ends at AES with the counter at zero; every other request changes nothing; the wire is untouched. |
| `RecordLayer.CryptoWriter.FillBuffer` | src/crypto/aead.rs:169-202 | The buffer holds exactly the content, type byte and zeros that the scheme and the draw prescribe, and the offset moves by the content taken. |
| `RecordLayer.CryptoWriter.WriteSealed` | src/crypto/aead.rs:203-223 | Appends one framed record sealed under the current counter and moves the counter by one. |
| `RecordLayer.CryptoWriter.SendRecord` | src/crypto/aead.rs:165-224 | One round of the send loop: fails without writing when the counter is used up, else writes the next record. |
| `RecordLayer.CryptoWriter.SendData` | src/crypto/aead.rs:159-228 | The loop terminates (lexicographic measure, also with targets of 1) and writes exactly the records of the specification's send, whose meaning is `StreamRoundTrip`. |
| `RecordLayer.CryptoWriter.SendControl` | src/crypto/aead.rs:230-254 | One unpadded record of two bytes and a type, or failure with nothing written when the counter is used up; the scheme position does not move. |
| `RecordLayer.CryptoWriter.SendCloseNotify` | src/crypto/aead.rs:257-259 | Appends one framed record that seals 01 00 15 under the current counter, or nothing when the counter is used up. |
| `RecordLayer.CryptoWriter.SendTargetUnreachable` | src/crypto/aead.rs:263-265 | Appends one framed record that seals the reason, 00 and 18, or nothing when the counter is used up. |
| `RecordLayer.ProcessOpened` | src/crypto/aead.rs:417-454 | A plaintext is delivered as data `content` if and only if it is `content`, the data type byte and any number of zeros; other outcomes are those of the specification. |
| `RecordLayer.CryptoReader.constructor` | src/crypto/aead.rs:331-344 | A new reader is a bootstrap-cipher receiver at counter zero. |
| `RecordLayer.CryptoReader.Rekey` | src/crypto/aead.rs:352-361 | The same condition as for the writer: from the bootstrap cipher to AES with the counter at zero, and no other change; no input is consumed. |
| `RecordLayer.CryptoReader.RecvData` | src/crypto/aead.rs:376-412 | Delivers `content` if and only if a whole record with a good header is there, the counter is not used up and the body opens under the reader's key and counter to `content`, the data type and zeros; fails to open if and only if such a record does not open; the counter moves by one for every record that is opened or not; how much input is consumed; and all other error cases as specified. |
| `RecordTheorems.LawfulAeadExists` | src/crypto/aead.rs:212-214 | The open-after-seal law is satisfiable. |
| `RecordTheorems.DataIffInner` | src/crypto/aead.rs:417-454 | Delivered as data if and only if of the inner-plaintext form; payloads with trailing zeros included. |
| `RecordTheorems.NextInnerFits` | src/crypto/aead.rs:169-202 | Every record a send builds, for every valid scheme and draw, passes the reader's size guard and is read back as the bytes taken; inside the scheme its length is the target. |
| `RecordTheorems.RecvFrame` | src/crypto/aead.rs:376-407 | Receiving a frame written in step gives its plaintext, the next counter and the untouched rest. |
| `RecordReceive.RecvIff` | src/crypto/aead.rs:376-407 | The same for every receiver state and every input, without reference to a sender: what is delivered, when opening fails, when the input ends or the counter is used up, the next counter and the rest. |
| `RecordReceive.PlaintextIff` | src/crypto/aead.rs:417-454 | Every outcome for an opened record, by its last non-zero byte: data, close, unreachable with its reason, unknown type, empty or padding only. |
| `RecordReceive.DeliveredIsAuthentic` | src/crypto/aead.rs:376-454 | Over every run on arbitrary bytes, with rekeys anywhere: each delivered piece of data was opened under the receiver's key, and no cipher and counter deliver twice. |
| `RecordReceive.NonceIs` | src/crypto/aead.rs:67-71 | A nonce is twelve bytes: four zeros and the counter, most significant byte first. |
| `Records.PickCovers` | src/crypto/aead.rs:169-174 | A drawn target is within its range, and every value of the range is some draw's. |
| `RecordTheorems.SendHeard` | src/crypto/aead.rs:159-228 | Receiving the records of one send gives a prefix of the payload; it is the whole payload if and only if the send succeeds, and a send fails only with the counter used up. |
| `RecordTheorems.ControlHeard` | src/crypto/aead.rs:230-254 | Receiving a control record gives back its body and type, and the ends stay in step. |
| `RecordTheorems.StreamRoundTrip` | src/crypto/aead.rs:159-454 | For every run of data sends, control sends and rekeys, every padding setting, scheme and draw: the reader's events equal the writer's, byte for byte and in order, the ends stay in step and following bytes stay unread. |
| `Ciphers.KeyInfoInjective` | src/crypto/cipher.rs:41-46 | The four HKDF info strings of a session are pairwise distinct. |
| `RecordSafety.FormatNonceInjective` | src/crypto/aead.rs:67-71 | Different 64-bit counters give different nonces. |
| `RecordSafety.NamesNeverRepeat` | src/crypto/aead.rs:137-254 | In every interleaving of both ends' operations, with draws of their own, no direction, cipher and counter is used twice, and the counter never wraps. |
| `RecordSafety.NoKeyNonceReuse` | src/crypto/aead.rs:55-71 | The same in bytes: no HKDF info string and nonce are ever sealed together twice in a session, both directions together. |
| `RecordSafety.RekeyAtMostOnce` | src/crypto/aead.rs:137-146 | Over every run the cipher changes at most once and only away from the bootstrap cipher. |
| `RecordSafety.FinalCipherIff` | src/crypto/aead.rs:137-146 | Over every run the sender ends on AES if and only if it started there or some operation was a rekey to AES. |
| `RecordSafety.ShapedToTarget` | src/crypto/aead.rs:169-187 | With padding on, every record of a send inside the scheme has exactly its drawn target length, whatever the payload. |
| `RecordSafety.StreamShaped` | src/crypto/aead.rs:169-187 | Over whole runs the i-th data record inside the scheme has the i-th target; control records and rekeys do not move the scheme. |
| `RecordSafety.RecordCountBound` | src/crypto/aead.rs:165-202 | A send makes at most the rest of the scheme plus ceil(n / 4096) records. |
| `RecordSafety.UnpaddedWireBound` | src/crypto/aead.rs:188-223 | An unpadded send of n bytes emits at most n + 22 * ceil(n / 4096) bytes, for every draw; a completed one emits exactly n + 22 per record. |
| `RecordSafety.RelayBufferFits` | src/crypto/aead.rs:10-23 | 65536 unpadded bytes never exceed 65888 on the wire, below the writer's buffer capacity. |
| `RecordSafety.PaddedWireBound` | src/crypto/aead.rs:165-223 | A padded send emits at most its payload, 22 bytes for each record of the rest of the scheme and of ceil(n / 4096), and less than one target of padding. |
| `RecordSafety.PaddedRelayBufferFits` | src/crypto/cipher.rs:108-121 | 65536 bytes fit the writer's buffer under the default scheme, and under any other with 22 bytes per range left plus its largest target within the slack of 3744. |
| `RecordSafety.TinyTargetsOverflow` | src/crypto/aead.rs:169-187 | While the next k targets are 1, any payload costs at least 22 * k bytes; 3166 of them exceed the buffer. |
| `PaddingScheme.ParsePaddingScheme` | src/crypto/cipher.rs:145-157 | The loop computes the grammar's meaning; whatever it accepts is non-empty and within 1..16384 with ordered bounds. |
| `SchemeGrammar.SchemeIff` | src/crypto/cipher.rs:145-157 | A text is accepted as a scheme if and only if the scheme is non-empty and lists, in order, the ranges of its non-blank parts; it is refused if and only if some part is neither blank nor a range, or all are blank. |
| `SchemeGrammar.ParseRangeIff` | src/crypto/cipher.rs:147-153 | A part is a range if and only if it is two numbers around its first dash, blanks aside, with 1 <= lo <= hi <= 16384. |
| `PaddingScheme.SchemeRoundTrip` | src/crypto/cipher.rs:145-157 | Printing and parsing a usable scheme gives it back. |
| `PaddingScheme.SchemeInForce` | src/crypto/cipher.rs:110-137 | Whatever is configured, the scheme in force is non-empty and valid. |
| `Negotiation.FrameArrivesWhole` | src/proxy/mirage_server/control.rs:153-168 | For one draw: a frame arrives in the first receive if and only if the first record has room for it. |
| `Negotiation.FrameAlwaysArrivesWhole` | src/crypto/aead.rs:169-202 | For all draws: a frame always arrives in the first receive if and only if the lower bound of the next range (or the least bucket) leaves room for it. |
| `Negotiation.FrameIsOneRecord` | src/crypto/aead.rs:159-228 | A frame that fits is one record and both ends stay in step. |
| `Negotiation.NegotiationAgrees` | src/proxy/pool.rs:1227-1252 | For one pair of draws: both ends decide on the same cipher from what they received, and are in step after their rekeys, if and only if both frames fit their first record; from the bootstrap cipher all four halves then stand at the negotiated cipher, which is AES exactly when both support it. |
| `Negotiation.NegotiationAlwaysAgrees` | src/proxy/mirage_server/control.rs:153-168 | For all draws: they always agree if and only if the next range of each sender leaves room for its frame. |
| `Negotiation.TinyTargetLosesNego` | src/crypto/cipher.rs:170-184 | With an accepted scheme of target 1 the server's first receive is empty, and empty is no negotiation frame. |
| `Tags.FreshIsLeast` | src/bin/mirage.rs:578-592 | The chosen suffix is the least free one from 2 on. |
| `Tags.UniqueAutoTag` | src/bin/mirage.rs:578-592 | Returns a tag not taken, the base itself when free, and records it; the search ends. |
| `Reachability.Saturate` | src/bin/mirage.rs:1226-1250 | The fixpoint loop ends with exactly the names from which a path of references leads to the base. |
| `Reachability.LeadsOrderFree` | src/bin/mirage.rs:1237-1250 | What is reached depends on the groups as a set, not on order or repetition. |
| `Reachability.TrimmingKeepsPaths` | src/bin/mirage.rs:1441-1456 | Cutting member lists down to what leads to the base keeps every group connected to it. |
| `FragmentFiles.FragmentMerger.constructor` | src/bin/mirage.rs:1116-1146 | The collections start as the config's tags and endpoints with an empty remap. |
| `FragmentFiles.FragmentMerger.MergeNodes` | src/bin/mirage.rs:1147-1176 | The node loop computes the specification's node stage (de-duplication, renaming, remap). |
| `FragmentFiles.FragmentMerger.NameAllGroups` | src/bin/mirage.rs:1177-1195 | The naming loop computes the specification's naming stage. |
| `FragmentFiles.FragmentMerger.MergeBuiltins` | src/bin/mirage.rs:1196-1225 | The direct/block loop computes the specification's builtin stage. |
| `FragmentFiles.FragmentMerger.PresentNames` | src/bin/mirage.rs:1226-1250 | The present set holds a group exactly when it leads, along remapped members, to an outbound that is no fragment group. |
| `FragmentFiles.FragmentMerger.LandPresent` | src/bin/mirage.rs:1252-1270 | Appends exactly the present groups, in order, with members filtered, and reports the others. |
| `FragmentFiles.MergeRules` | src/bin/mirage.rs:1272-1290 | The loop adds the rules of the specification, whose targets and order are `MergeResult.MergedRules`, and counts the dropped ones. |
| `FragmentFiles.MergeFragment` | src/bin/mirage.rs:1116-1294 | The whole merge equals the specification's, told from the inputs in `MergeResult`; old content stays as a prefix and unique tags stay unique. |
| `FragmentFiles.BuildExport` | src/bin/mirage.rs:1375-1519 | The whole export equals the specification's, told from the config in `ExportResult`. |
| `MergeTheorems.GatheredSound` | src/bin/mirage.rs:1123-1225 | Every stage keeps: old outbounds a prefix, `taken` exactly the tags in the config and the reserved ones, no reserved tag used twice. |
| `MergeTheorems.MergeKeepsTags` | src/bin/mirage.rs:1116-1294 | For every config and fragment: old outbounds and rules an untouched prefix, uniqueness kept, the final present set equal to the tags in the config. |
| `MergeTheorems.MergeClosed` | src/bin/mirage.rs:1252-1290 | Every landed group has a member; every member and every added rule names an outbound that exists. |
| `MergeTheorems.LandsIffLeads` | src/bin/mirage.rs:1226-1270 | A fragment group lands if and only if a path of remapped references leads from it to an outbound that is not one of the fragment's groups. |
| `MergeResult.MergedRules` | src/bin/mirage.rs:1272-1290 | The added rules are, in order and each as often, exactly the fragment's rules whose remapped target is a tag of the result, with their body and that target; all others are counted as dropped. |
| `MergeResult.RuleToNode` | src/bin/mirage.rs:1272-1290 | A rule to a node whose reference is kept ends at an outbound with that node's host and port. |
| `MergeResult.MergedOutbounds` | src/bin/mirage.rs:1116-1270 | The outbounds of a merge, in order: the old ones; exactly the nodes with a port whose endpoint neither the config nor an earlier node has; exactly the directs and blocks the config does not have; and exactly the groups whose name is a tag of the result, with the members that are there after the remap. The rest is reported, and the counts are right. |
| `MergeResult.HostPortsIff` | src/bin/mirage.rs:1124-1146 | A node's endpoint counts as known if and only if some mirage outbound of the config has it. |
| `MergeResult.KindOfIff` | src/bin/mirage.rs:1124-1146 | A direct or block counts as known if and only if the config's last outbound of its tag has its kind. |
| `MergeResult.RenamesReported` | src/bin/mirage.rs:1147-1225 | Each step that takes a name reports it, with the tag, if and only if the object has a tag and the name is another; later stages report none. |
| `MergeMeaning.NodesAddedOnce` | src/bin/mirage.rs:1147-1176 | No two added nodes share a host and port, and none shares one with an existing mirage node. |
| `MergeMeaning.NodeReferenceMeans` | src/bin/mirage.rs:1154-1175 | After the node stage a reference to a fragment node ends at an outbound of the same host and port. |
| `NodeMeaning.NodeNameIff` | src/bin/mirage.rs:1147-1225 | Through the whole merge, a reference to a node (the last valid one of its tag) keeps the name the node stage gave it if and only if no group shares the tag and every direct or block that does is known to the config or finds the tag free. |
| `NodeMeaning.NodeReferenceIff` | src/bin/mirage.rs:1147-1225 | It ends at an outbound with the node's host and port under exactly the same condition, when directs and blocks have no port. |
| `NodeMeaning.KeptNodeReference` | src/bin/mirage.rs:1147-1225 | Under that condition it does so for every config and fragment. |
| `NodeMeaning.MergedNodeReference` | src/bin/mirage.rs:1147-1225 | In particular when nothing else in the fragment shares the tag. |
| `NodeMeaning.GroupTakesReference` | src/bin/mirage.rs:1177-1195 | A concrete merge after which a reference to a node ends at no outbound with its host and port. |
| `BuiltinMeaning.BuiltinReferenceIff` | src/bin/mirage.rs:1147-1225 | Through the whole merge, a reference to a direct or block (the last one of its tag) ends at an outbound of the same kind if and only if: known to the config, nothing of another kind in the fragment shares the tag; else, the tag is taken when its turn comes or no node or group shares it. |
| `BuiltinMeaning.UnsharedBuiltinKept` | src/bin/mirage.rs:1196-1225 | In particular whenever nothing of another kind in the fragment shares the tag. |
| `BuiltinMeaning.DirectBecomesNode` | src/bin/mirage.rs:1203-1208 | A concrete merge after which a reference to a direct ends at a proxy node. |
| `BuiltinMeaning.ClaimedIff` | src/bin/mirage.rs:1148-1195 | After nodes and groups, exactly the tags of valid nodes and of tagged groups are remapped. |
| `MergeOrder.OrderCanMatter` | src/bin/mirage.rs:1177-1250 | A concrete fragment where swapping two groups changes whether a third lands. |
| `MergeOrder.OrderDoesNotMatter` | src/bin/mirage.rs:1177-1294 | When no two groups choose the same name first, every order lands the same group objects and adds the same rules, renames included. |
| `MergeOrder.NamesOrderFreeIff` | src/bin/mirage.rs:1177-1195 | For distinct groups, names are independent of order if and only if no two groups would choose the same name first. |
| `MergeOrderExact.OrderFreeIff` | src/bin/mirage.rs:1177-1294 | For distinct groups, names, landed objects, present set and rules together are independent of order if and only if no two groups would choose the same name first. |
| `MergeOrderExact.ClashMovesLanding` | src/bin/mirage.rs:1177-1250 | For any two groups that would choose the same name, in any fragment, there are member lists under which swapping them changes which names are present. |
| `ExportTheorems.ExportedIs` | src/bin/mirage.rs:1401-1440 | Without filters, what is exported is exactly what leads along member lists to the picked nodes and the direct/block outbounds. |
| `ExportResult.ExportedIsLeast` | src/bin/mirage.rs:1401-1440 | With filters too: what is exported is the least set that holds the picked tags, the directs and blocks, and every group with a member or a filter match in it. |
| `ExportResult.ExportIs` | src/bin/mirage.rs:1375-1519 | The lists of an export, each in the order of the config: the picked nodes, the exported groups with their exported members, the directs and blocks that something exported refers to, exactly the rules to exported outbounds, and the default outbound if it is exported. |
| `ExportTheorems.ExportSelfContained` | src/bin/mirage.rs:1387-1519 | Every reference in an export resolves inside it, and every exported group leads to an exported leaf. |
| `ExportTheorems.MergeSelfContained` | src/bin/mirage.rs:1116-1294 | Merging a self-contained fragment into an empty config takes it over unchanged. |
| `ExportTheorems.ExportThenMerge` | src/bin/mirage.rs:1375-1519 | Export then merge gives back exactly the nodes, direct/block outbounds, group member lists and rules, with no rename, skip or drop. |
| `ExportResult.ExportThenMergeIs` | src/bin/mirage.rs:1375-1519 | The same told from the first config: what comes back are its picked nodes, referenced directs and blocks, exported groups and rules to exported outbounds, each in its order. |
| `Cycles.RotationSameCanonical` | src/config.rs:2373-2385 | Rotations of a simple cycle have one canonical form. |
| `Cycles.CycleFinder.Report` | src/config.rs:2371-2404 | Reporting a back edge keeps the search invariant, leaves earlier reports and ends with the edge on a reported cycle; a rotation already reported is not reported again. |
| `Cycles.CycleFinder.Dfs` | src/config.rs:2355-2416 | The recursive search keeps the invariant (every edge of a finished node goes to an earlier finished one or lies on a reported cycle), restores the path, only darkens colours, keeps earlier reports and finishes its node. |
| `ReferenceGraph.GroupMembers` | src/config.rs:801-829 | Explicit members first, then each other proxy leaf the filter matches, once; an error exactly when the filter does not compile. |
| `ReferenceGraph.BuildAdjacency` | src/config.rs:2301-2345 | The adjacency lists are exactly the reference relation without self-edges and unknown tags. |
| `ReferenceGraph.CycleIsMet` | src/config.rs:2371-2404 | When every edge goes down in the finish order or lies on a reported cycle, every cycle has an edge on a reported one. |
| `ReferenceGraph.SearchMeans` | src/config.rs:2355-2425 | A finished search has no report if and only if there is no cycle; reports are simple cycles, pairwise no rotations; every cycle shares an edge with a report; and the finish order is topological but for edges on reported cycles. |
| `ReferenceGraph.SearchMeansRefs` | src/config.rs:2301-2425 | The same in terms of the configured references. |
| `ReferenceGraph.DetectCycles` | src/config.rs:2301-2425 | The whole check on the configured references: a report if and only if there is a cycle, reports are simple cycles and pairwise no rotations, every cycle shares an edge with a reported one, and every tag finishes after all it refers to but along reported cycles. |
| `StaticHosts.NormalizeStaticHosts` | src/config.rs:1271-1306 | The three passes compute the normalised table; domains unique, longest first. |
| `StaticHosts.EnumerationOrderFree` | src/config.rs:1271-1306 | The table does not depend on the order in which the map is enumerated. |
| `StaticHosts.NormalizedIs` | src/config.rs:1271-1306 | An entry is in the table if and only if its raw key is the least usable one for its normalised domain. |
| `StaticHosts.NormalizedOrder` | src/config.rs:1274-1305 | Domains of one length keep the order of their raw keys, and each domain has the addresses of its first usable key. |
| `StaticHosts.ValidIpsLists` | src/config.rs:1284-1293 | The addresses of an entry are, in order, exactly those that parse. |
| `StaticHosts.TrimDotsIs` | src/config.rs:1279 | The trailing dots go, all of them and nothing else. |
| `StaticHosts.FirstMatch` | src/dns/server.rs:1596-1598 | The first match is the unique longest match; none is found only if nothing matches. |
| `StaticHosts.MatchesIff` | src/dns/server.rs:411-416 | A key matches itself and every non-empty label sequence in front of it after a dot, and nothing else. |
| `StaticHosts.MatchDetermined` | src/dns/server.rs:411-416 | Two matching keys of one length are equal. |
| `RateLimit.RateLimiter.SweepExpired` | src/api/ratelimit.rs:94-100 | Removes exactly the expired records. |
| `RateLimit.RateLimiter.IsLocked` | src/api/ratelimit.rs:53-62 | Answers by the table before any sweep; sweeps exactly when the interval has passed. |
| `RateLimit.RateLimiter.Evict` | src/api/ratelimit.rs:104-118 | Leaves room for one entry: only the sweep if that is enough, else exactly one below the cap, by dropping those with the oldest windows. |
| `RateLimit.RateLimiter.NoteFailure` | src/api/ratelimit.rs:65-85 | The new record, with everything else kept unless a full table had to evict; the table never exceeds its cap. |
| `RateLimit.RateLimiter.NoteSuccess` | src/api/ratelimit.rs:88-90 | Forgets the address and nothing else. |
| `RateLimit.RateLimiter.Note` | src/api/mod.rs:225-241 | The second critical section: removes the record on success, counts the failure otherwise; the table never exceeds its cap. |
| `RateLimit.RateLimiter.Guard` | src/api/mod.rs:201-246 | A request that no other interrupts: refuses while locked, otherwise compares and notes the result. |
| `RateInterleaving.CheckLock` | src/api/mod.rs:205-219 | The first critical section as a step of the interleaved model: swept table, and let through exactly when not locked. |
| `RateInterleaving.NoteResult` | src/api/mod.rs:225-241 | The second critical section as a step of the interleaved model, with the time read before the first. |
| `RateTheorems.SweepingInvisible` | src/api/ratelimit.rs:53-100 | With non-decreasing time, which interleaved requests need not keep, and no eviction, a limiter sweeping at arbitrary moments answers every lock query like one that never sweeps, and ends with the same records but for expired ones. |
| `RateTheorems.SweepIff` | src/api/ratelimit.rs:94-100 | A sweep keeps exactly the records that still lock their address or change how some later failure counts, as they are. |
| `RateTheorems.GuardVerdict` | src/api/mod.rs:201-246 | Refused if and only if the record's lock has not ended; otherwise accepted if and only if the token is right; a right token forgets the record, a wrong one counts in its window or starts one; other records only go by sweeping and eviction. |
| `RateSweeping.SweepingUnnoticedIff` | src/api/ratelimit.rs:53-100 | In interleaved runs, a sweeping limiter lets the same requests through as one that never sweeps and agrees on every record, at every point, if and only if no check finds an active lock on a swept record and no failure falls into its window. |
| `RateSweeping.SweepingInvisibleInFlight` | src/api/ratelimit.rs:53-100 | In particular if no step keeps a time older than a sweep before it. |
| `RateTheorems.RunOk` | src/api/ratelimit.rs:65-85 | Every table that uninterrupted requests reach has at most ten failures per record, locked exactly at ten. |
| `RateTheorems.LockoutHolds` | src/api/mod.rs:201-246 | In runs of uninterrupted requests, a locked address is refused until the lock ends, unless evicted; its record does not change. |
| `RateTheorems.TenFailuresLockOut` | src/api/ratelimit.rs:65-85 | In runs of uninterrupted requests, after any history, a tenth failure in a window refuses every later request of the address until exactly the cooldown counted from that failure. |
| `RateInterleaving.LockedMeansTen` | src/api/ratelimit.rs:65-85 | In every interleaved run a record is locked exactly from ten failures on. |
| `RateInterleaving.LockHoldsIff` | src/api/mod.rs:201-246 | In every interleaved run a lock lasts until h at every point if and only if every settle of the address fails, inside the window that led to the lock, with a time no more than the cooldown before h. |
| `RateInterleaving.HeldMeansRefused` | src/api/mod.rs:208-219 | While the lock lasts, no request of the address passes the check. |
| `RateInterleaving.RecordUnchangedIff` | src/api/mod.rs:201-246 | A locked record stays as it is if and only if no request of the address settles. |
| `RateInterleaving.HeldIffRefused` | src/api/mod.rs:208-219 | A lock lasts at every point of a run if and only if at every point every request of the address with a time before its end would be refused. |
| `RateInterleaving.LockoutIff` | src/api/mod.rs:201-246 | Once the tenth failure of a window is counted, every request of the address is refused throughout its cooldown if and only if what settles later fails, inside the window, and none of it is older than the tenth. |
| `RateLockout.CountsAllIff` | src/api/ratelimit.rs:65-85 | In interleaved runs with fewer than ten failures, a record counts all that were noted if and only if no settle of the address and no sweep has read a time past its window. |
| `RateLockout.TenFailuresIff` | src/api/mod.rs:201-246 | Ten failures of a window, interleaved with anything: from the tenth on every request is refused throughout the cooldown if and only if both conditions hold. |
| `RateLockout.FirstFailureStarts` | src/api/ratelimit.rs:70-80 | A failure without a record, or past its window, starts a window that counts one. |
| `RateLockout.TenFailuresWithoutLock` | src/api/mod.rs:201-246 | Two interleaved runs with ten failures inside a window and no lock: somebody else's sweep, or a failure past the window, comes between the tenth's check and its note. |
| `RateBound.FailureBoundInFlight` | src/api/ratelimit.rs:53-118 | Over interleaved runs, with at most k requests of the address in flight and none lagging more than lag behind, any span T admits at most (9 + k) * ((T + lag + window) / (window - lag + 1) + 1) failed comparisons without success or eviction. |
| `RateBound.BoundAttained` | src/api/mod.rs:201-246 | For every k the bound is attained, at a single moment from the empty table; with two in flight ten failures in a window are exceeded. |
| `RateBound.PlaysAlike` | src/api/mod.rs:201-246 | An uninterrupted request is its check and its note in a row. |
| `RateBound.FailureBound` | src/api/ratelimit.rs:53-118 | The case of uninterrupted requests (k = 1, lag = 0): any span T admits at most 10 * (T / window + 2) failed comparisons of an address without success or eviction. |
| `RateInterleaving.LateSettlesBreakLock` | src/api/mod.rs:201-246 | Three interleaved runs in which a late success, a failure past the window or an older failure lets a request through inside the cooldown. |
| `Handover.Redirector.Connect4` | ebpf-src/cgroup_connect.c:57-82 | A TCP connect into the fake range is redirected and its destination stored under the socket's cookie; nothing else changes. |
| `Handover.Redirector.TcpConnectCallback` | ebpf-src/cgroup_connect.c:84-96 | A stored destination moves from cookie to source port. |
| `Handover.Redirector.LookupOrigDst` | src/ebpf/cgroup_connect.rs:92-99 | Returns the port's entry and removes it. |
| `Handover.HandedOver` | ebpf-src/cgroup_connect.c:57-96 | In every interleaving over any number of sockets an accepted connection finds its own destination, given a prompt SYN and no reuse of the port before accept. |
| `Handover.HandedOverIff` | src/ebpf/cgroup_connect.rs:92-99 | For every trace: the lookup finds a destination if and only if a socket connected to it, its SYN went out from the port before the socket connected to the fake range again, and nobody has used the port since. |
| `Handover.CookieIff` | ebpf-src/cgroup_connect.c:57-96 | The cookie map holds a destination if and only if it is where the socket last connected in the fake range and its SYN has not gone out since. |
| `Handover.AssumptionsNeeded` | ebpf-src/cgroup_connect.c:57-96 | Without either assumption another destination is handed over. |
| `Checksums.FoldIsMod` | ebpf-src/dns_xdp.c:205-214 | Folding gives all ones exactly for the positive multiples of 65535. |
| `Checksums.ByteOrderIndependent` | ebpf-src/dns_xdp.c:205-214 | A buffer verifies in host order if and only if it verifies in network order. |
| `Checksums.TwoFoldVerifies` | ebpf-src/dns_xdp.c:205-214 | Two folds are enough for ten words. |
| `Checksums.RefreshIpChecksum` | ebpf-src/dns_xdp.c:205-214 | For every 20-byte header the result verifies in both byte orders and only the checksum changes. |
| `Checksums.ReplyVerifies` | ebpf-src/tc_divert.c:138-156 | The incremental update turns a verifying echo request into a verifying reply. |
| `Checksums.DivertEcho` | ebpf-src/tc_divert.c:159-193 | Reflects exactly the echo requests to a fake address in IPv4 packets without options, keeping both checksums valid, and leaves every other frame alone. |
| `Checksums.ReflectIcmpEcho` | ebpf-src/tc_divert.c:138-156 | Swaps MAC and IP addresses, clears the type and keeps both checksums valid. |
| `Checksums.ReplyGoesBack` | ebpf-src/tc_divert.c:138-156 | Byte by byte: the reply goes from the old destination to the old source, as an echo reply, with everything else but the checksum kept. |
| `DnsNames.HashDomain` | ebpf-src/dns_xdp.c:43-70 | The flat loop stays in bounds and hashes exactly the bytes the walk feeds. |
| `DnsNames.Djb2Is` | ebpf-src/dns_xdp.c:43-70 | The hash in closed form: the bytes fed as digits to base 33 behind 5381, modulo 2^64. |
| `DnsNames.ValidNameWalked` | ebpf-src/dns_xdp.c:43-70 | For every valid name of up to 255 bytes the 256 steps stop just past the root label. |
| `DnsNames.FedInjective` | ebpf-src/dns_xdp.c:43-70 | Two names feed the same bytes if and only if they differ at most in ASCII case. |
| `DnsNames.UserSpaceAgrees` | src/ebpf/mod.rs:13-29 | For every valid name, the user-space hash of its dotted form is fed the same bytes as the kernel's if and only if no label contains a dot. |
| `Registry.TargetHostRoundTrip` | src/monitor.rs:375-384 | The host of `host:port` is `host`, brackets of an IPv6 literal included. |
| `Registry.TargetHostWhole` | src/monitor.rs:375-384 | A target without a bracket, and without a colon or with nothing before its only one, is its own host. |
| `Registry.ConnRegistry.RegisterConn` | src/monitor.rs:460-520 | A registration is one step of the specification under a fresh id; a full table loses an entry of least weight. |
| `Registry.ConnRegistry.DropConn` | src/monitor.rs:408-455 | A drop is one step of the specification: off the live table, onto the ring, bytes onto the totals. |
| `Registry.ConnRegistry.CountBytes` | src/monitor.rs:390-397 | Bytes reach the live connection and nothing else. |
| `RegistryTheorems.Conserved` | src/monitor.rs:408-520 | Over every run: per-outbound connections and bytes, per-user totals and active counts, live = registered - dropped, bytes of each connection, the ring as the last 300 drops in order, and the caps. |
| `RegistryTheorems.DomainConserved` | src/monitor.rs:427-497 | A domain's entry never exceeds what happened, and equals it as long as no eviction picked that domain. |
| `RegistryTheorems.DeviceConserved` | src/monitor.rs:440-509 | A device's entry equals its registrations and dropped bytes and dates from its last registration, as long as no eviction picked it. |
| `Netlink.ShouldBump` | src/net_monitor.rs:117-142 | Terminates and stays in bounds on arbitrary bytes and equals the recursive walk. |
| `Netlink.ScanMessage` | src/net_monitor.rs:117-142 | The walk judges one well-formed message and goes on with the rest. |
| `Netlink.ScanMeans` | src/net_monitor.rs:117-142 | On every concatenation of well-formed aligned messages: true exactly when some message is taken for worthy, each judged with the bytes that follow it. |
| `Netlink.ScanIsExists` | src/net_monitor.rs:117-142 | With route payloads of at least 2 bytes: true exactly when some message is a link, address or default-route change. |
| `Netlink.ShortRouteJudgedByNeighbour` | src/net_monitor.rs:133-136 | A shorter route payload anywhere in the list is judged by a byte that is not its own: it counts if and only if that byte is there and zero. |

## Left out

- Cryptography (AEAD, HKDF, X25519): abstract functions with the open-after-seal law; no secrecy or timing claim.
- I/O, flushing, partial reads of a socket and the traffic counters fed by the record layer.
- `shutdown_transport` and the truncation verdict on a bare end of stream.
- The debug-build panic of a refused `rekey`: the release behaviour is modelled.
- ShapedToTarget: requires a scheme of at most 2^32 - 1 ranges, because `records_sent` saturates there and later records repeat the last reachable target.
- StreamShaped: the same bound on the scheme, for the same reason; and runs in which no operation ran out of counters.
- RecordCountBound: the same bound on the scheme when records are shaped, for the same reason.
- JSON, serde and regex: configs are datatypes, other fields are an uninterpreted `body`, and an absent member list is the empty one.
- Groups with a filter in the export/merge round trip: export keeps them, merge lands a group only through explicit members.
- RenamesReported: one step at a time; that the list as a whole follows the order of the steps is not stated as one list.
- OrderDoesNotMatter: the sufficient half; OrderFreeIff has both. Clashing groups need not move the present set for every member list; ClashMovesLanding says that they do for some.
- NodeNameIff: for the last valid node of its tag, a config with unique non-empty tags, and fragment nodes that are no directs or blocks.
- NodeReferenceIff: as NodeNameIff, and for directs and blocks without a port, since a renamed one with the node's host and port would pass for it.
- BuiltinReferenceIff: for the last direct or block of its tag, a config with unique non-empty tags, and fragment nodes that are no directs or blocks; an earlier one of the same tag and the other kind is not tracked.
- Merging of `geo_sources` and the geodata directory.
- The counter of `unique_auto_tag` is unbounded here; the original's 32-bit counter would need two billion taken tags to overflow.
- The wording of cycle messages and their hint about filters.
- `to_lowercase` and IP parsing in the static hosts: parameters.
- Guard: one request that nobody interrupts; the interleaved form is the subject of `RateInterleaving` and `RateBound`.
- LockoutHolds: uninterrupted requests only; the exact condition under interleaving is LockHoldsIff.
- TenFailuresLockOut: uninterrupted requests only; the exact condition under interleaving is TenFailuresIff.
- SweepingInvisible: for times that never decrease; the exact condition under interleaving is SweepingUnnoticedIff.
- FailureBoundInFlight: for requests that lag less than the window behind the newest time read; nothing is claimed for a comparison that takes a minute or more.
- SweepIff: for records with at least one failure in a 32-bit counter, which is what a counted failure leaves unless the counter wraps.
- LockHoldsIff: up to time h, since a sweep after the lock has ended may forget the record, and for fewer than 2^32 failures of one record, where its counter would wrap.
- DropConn: one step here, while the original takes the ring entry before it re-reads the counters for the totals; bytes counted in between are in the totals and not in the ring entry.
- RegisterConn: one step here, while the original takes the lock of each table in turn and the live table last; until then a user's active count and the other tables are ahead of the live connections by the registrations in progress.
- LRU eviction in the eBPF maps, the MSS clamp, socket lookup and assignment.
- Wrap-around of the 64-bit byte counters of the registry, persistence, user limits.
- DomainConserved: equality only while no eviction picked the domain, since eviction forgets its past; the upper bound holds for every run.
- DeviceConserved: only while no eviction picked the source, since bytes of a forgotten source are dropped.
- Router, pool, DNS server, API handlers, CLI and per-field config checks: easy or outside the modelled logic.
