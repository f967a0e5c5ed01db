# A verified model of the PowerDNS authoritative server's core

The project models, in Dafny 4.11, the name algebra of the authoritative server, the indexes and caches built
on it, and the state machines that keep secondary zones in step with their primaries. It proves what these
parts promise for every input and, for the protocols, for every interleaving.

`dafny verify dfyconfig.toml` checks the whole project.

| part | files |
|---|---|
| names: storage, edits, packet parser, canonical order | `Wire`, `DnsName`, `PacketParser`, `Canon`, `ZoneNames` |
| suffix tree, hash, caches | `SuffixTree`, `Burtle`, `CacheCleaner`, `CacheTrimmer`, `QueryCache`, `ZoneCache`, `ZoneRefresh` |
| secondary synchronisation | `CatalogRoles`, `CatalogRecords`, `CatalogParse`, `CatalogDiff`, `Ixfr`, `TransferQueue` |
| rectification and import | `ZoneTree`, `OrderNames`, `EmptyNonTerminals`, `Rectify`, `AxfrImport`, `RectifyAndImport` |
| hash encoding, backend threads | `Base32Hex`, `Distributor` |

How things are modelled:

- A name is the label list its storage spells (`Wire.NameOf`). `DnsName`, `PacketParser` and `Canon` work on the
  bytes and are proved against label lists; later files start from label lists and compare them up to ASCII case.
  `CatalogDiff`, `Ixfr`, `TransferQueue` and the files on rectification and import take names case-folded.
- Objects that the source changes in place are classes (`DNSName`, `SuffixMatchTree`, `AuthQueryCache`,
  `AuthZoneCache`, `Communicator`) or arrays of shards; every method states its whole effect.
- Protocols between threads (`ZoneRefresh`, `TransferQueue`, `Distributor`) are state machines whose steps are the
  critical sections or atomic accesses of the source, in any order; `AuthZoneCache` and `Communicator` are proved to
  take these steps.
- The backend is a map or a list of rows, the clock a parameter, the lock that `try_lock` may fail to get a flag.
- The NSEC3 hash is a parameter: the theorems hold for every hash function.
- Exceptions are results. A method that can throw says exactly when it does.
- `round` and `ceil` on doubles are exact rounding of fractions.

Where code and comments disagree the code is followed: the scan of `pruneMutexCollectionsVector` is announced as
stopping once enough entries are gone, but it looks at its whole share of every shard (`CacheTrimmer.ScanPhase`).

Things the code does not do everywhere, each with its exact condition:

- Trimming takes its share of every shard, rounded, out of what is left for the shards still to come. So shards of one
  size lose numbers that differ by at most one if they stand next to each other (`CacheTrimmer.EqualShards`), but not
  with others in between (`CacheTrimmer.ApartTheyDiffer`).
- A second run of a catalog update with the same transfer is not always idle. A zone that is a catalog itself and is
  moved here outside the member group keeps its kind until then (`CatalogDiff.SecondRunChangesNothing`,
  `CatalogDiff.MovedCatalogChangesLater`). A third run is idle (`CatalogDiff.ThirdRunChangesNothing`).
- `rectifyZone` skips a name whose rows are listed as they should be, but the listing shows an empty-string order name
  as unset. In an unsigned or narrow zone such a row below the apex keeps it (`Rectify.SkipSoundIff`,
  `Rectify.KeepsEmptyString`); its authority flag is right all the same (`Rectify.OutcomeRight`).
- `rectifyZone` gives up on empty non-terminals as soon as it meets one with its allowance used up, even one it has
  counted before; so at exactly the limit it may give up where the import does not (`EmptyNonTerminals.AtTheLimit`,
  `RectifyAndImport.EntsAgree`, `RectifyAndImport.GivesUpAtTheLimit`).
- `rectifyZone` walks to the root from rows outside the zone and looks for delegations up to the root: a delegation
  stored above the apex takes the authority of the whole zone (`Rectify.StrayDelegation`, `ZoneTree.StrayEnts`).
- Rectifying a zone and importing it give a record the same order name only in the places `RectifyAndImport.OrdersAgree`
  lists. In a zone with opt-out and own keys the import leaves the NS records of signed delegations without one
  (`RectifyAndImport.SignedDelegationLeftOut`).
- They flag an empty non-terminal alike only where `RectifyAndImport.EntFlagsAgree` says: above nothing but a delegation
  it is authoritative for the import and not for `rectifyZone` (`RectifyAndImport.LoneDelegation`).

## Model

| member | source | states |
|---|---|---|
| `Wire.EncodeThenLabels` | pdns/dnsname.cc:622-631 | encoding a valid name gives well-formed storage (labels of 1..63 octets, one final zero, at most 255 octets) that spells exactly that name |
| `Wire.LabelsThenEncode` | pdns/dnsname.cc:622-631 | well-formed storage is the encoding of the labels it spells, and those form a valid name |
| `Wire.SameNameMeans` | pdns/dnsname.hh:825-839 | names are the same iff their labels are, octet by octet up to the case of ASCII letters |
| `Wire.LabelCountBound` | pdns/dnsname.cc:844-856 | every label takes at least two octets, so a valid name has at most 127 labels |
| `Wire.SameBytesIffSameName` | pdns/dnsname.hh:825-839 | two storages are equal up to case byte for byte iff their label lists are, length bytes notwithstanding |
| `Wire.PartOfTransitive` | pdns/dnsname.cc:372-401 | being part of a name is transitive |
| `DnsName.WalkLabels` | pdns/dnsname.cc:844-856 | the label positions collected from the bytes are the offsets of the first labels, as many as the table holds |
| `DnsName.EqualFrom` | pdns/dnsname.cc:388-395 | the byte loop decides equality up to case of a tail |
| `DnsName.DNSName.GetRawLabels` | pdns/dnsname.cc:622-631 | returns the label list of the storage |
| `DnsName.DNSName.IsPartOf` | pdns/dnsname.cc:372-401 | throws iff a name is unset; else true iff the label list ends in the parent's labels, up to case |
| `DnsName.DNSName.Equals` | pdns/dnsname.hh:825-839 | true iff both are set or both unset and the label lists agree up to case |
| `DnsName.DNSName.AppendRawLabel` | pdns/dnsname.cc:464-488 | keeps the storage invariant although lengths are tested after truncation; appends the label iff length and total fit, else throws and changes nothing |
| `DnsName.DNSName.PrependRawLabel` | pdns/dnsname.cc:490-510 | keeps the invariant; prepends the label iff length and total fit, else throws and changes nothing |
| `DnsName.DNSName.ChopOff` | pdns/dnsname.cc:652-659 | drops the first label, false exactly on the root and on an unset name |
| `DnsName.DNSName.Append` | pdns/dnsname.hh:219-238 | concatenates the label lists iff the result fits, else throws and changes nothing |
| `DnsName.DNSName.MakeUsRelative` | pdns/dnsname.cc:403-419 | drops exactly the zone's labels; a name outside the zone becomes unset |
| `DnsName.RelativeInvertsConcat` | pdns/dnsname.cc:403-419 | for every name in a zone, relative name plus zone fits and is the name again up to case |
| `DnsName.ConcatInvertsRelative` | pdns/dnsname.hh:219-238 | a name put in front of a zone is part of the zone, and its relative name is what was put in front |
| `PacketParser.SegmentBytes` | pdns/dnsname.cc:153-209 | the bytes of a run of labels are the encoding of the labels read from it |
| `PacketParser.ParseUncompressed` | pdns/dnsname.cc:153-209 | appends exactly the labels up to the zero or pointer byte, or throws on the stated malformations |
| `PacketParser.CountPointer` | pdns/dnsname.cc:228-243 | a bare pointer is refused iff the chain or the packet's budget is used up, else charged to both |
| `PacketParser.ParseName` | pdns/dnsname.cc:212-296 | terminates; accepts iff the reference decompressor yields a name that fits and whose segments respect every limit; then the storage is the old name plus the decompressed one and the position and budget are exact |
| `PacketParser.Parse` | pdns/dnsname.cc:212-296 | acceptance iff for the whole entry point with type and class, and the exact result |
| `PacketParser.ReadTypeAndClass` | pdns/dnsname.cc:278-296 | type and class are the words behind the name, refused iff the buffer ends before them |
| `PacketParser.FollowsForward` | pdns/dnsname.cc:245-272 | if the whole is accepted, the target of its pointer is accepted under the limits left after charging this segment |
| `PacketParser.FollowsBack` | pdns/dnsname.cc:245-272 | if the target is accepted under those limits, the whole is accepted |
| `PacketParser.RejectedEarly` | pdns/dnsname.cc:214-266 | what is accepted passes every test made before a pointer is followed; in particular the target lies strictly before the segment that holds the pointer |
| `PacketParser.ChainsAreShortRuns` | pdns/dnsname.cc:236-243 | the chain counter bounds exactly the runs of consecutive bare pointers |
| `PacketParser.ReadsBack` | pdns/dnsname.cc:153-209 | a name written uncompressed anywhere in a packet is read back as it was, using up its own octets |
| `PacketParser.ReadsPointer` | pdns/dnsname.cc:245-272 | labels and two octets 0xc0 + pos / 256, pos % 256 are read as the labels followed by the name at pos |
| `PacketParser.ReadsCompressed` | pdns/dnsname.cc:245-272 | from the octets alone: a name whose tail is a pointer to an earlier name is read back as its labels and that name |
| `PacketParser.CutOffPointer` | pdns/dnsname.cc:244-246 | a pointer byte that is the last octet of the packet ends the name |
| `PacketParser.AcceptsCompressed` | pdns/dnsname.cc:212-296 | the parser takes such a name iff it is not too long, following is allowed, and the limits leave room for one pointer |
| `PacketParser.BareCount` | pdns/dnsname.cc:228-236 | what a name takes from the packet's budget is the number of its segments that start with a pointer |
| `PacketParser.WordIs` | pdns/dnsname.cc:282-294 | type and class have their high octet first |
| `Canon.ILexCompare` | pdns/dnsname.hh:63-88 | the byte loop computes the recursive comparison of labels |
| `Canon.SlowCanonCompare` | pdns/dnsname.cc:512-538 | the label-vector form computes the comparison of label lists |
| `Canon.CanonCompare` | pdns/dnsname.cc:540-619 | the position-array form, with its fallback at 64 labels, computes the same comparison for all well-formed names |
| `Canon.LabelsDeclarative` | pdns/dnsname.hh:63-88 | negative iff the labels agree up to an octet where the first ends or is smaller, up to case |
| `Canon.NamesDeclarative` | pdns/dnsname.cc:512-538 | negative iff the names agree in their last labels up to one where the first ends or has the smaller label |
| `Canon.NamesAntisymmetric` | pdns/dnsname.cc:540-619 | swapping the names negates the result |
| `Canon.NamesTransitive` | pdns/dnsname.cc:540-619 | the order is transitive, and strictly so |
| `Canon.NamesZero` | pdns/dnsname.cc:540-619 | zero exactly when operator== holds |
| `Canon.SuffixFirst` | pdns/dnsname.cc:540-619 | a name sorts before everything below it |
| `Canon.SuffixInterval` | pdns/dnsname.cc:540-619 | names between a suffix and one of its members are members |
| `ZoneNames.ZoneLessThan` | pdns/dnsname.cc:1052-1084 | the reversed byte comparison with the variant as tie-break is the modelled order |
| `ZoneNames.ZoneLessDeclarative` | pdns/dnsname.hh:240-253 | one zone is before another iff its storage string is, read from the end, or, for one name, its variant is |
| `ZoneNames.FlatInjective` | pdns/dnsname.cc:1052-1084 | the byte string compared determines the name |
| `ZoneNames.ZoneTrichotomy` | pdns/dnsname.cc:1052-1084 | exactly one of less, equal, greater holds for two zones |
| `ZoneNames.ZoneLessTransitive` | pdns/dnsname.cc:1052-1084 | the zone order is transitive |
| `SuffixTree.GetAfterAdd` | pdns/dnsname.hh:550-578 | after an addition exactly the spellings of the added name hold the new value |
| `SuffixTree.GetAfterRemove` | pdns/dnsname.hh:580-625 | after a plain removal exactly the spellings of the name hold nothing |
| `SuffixTree.BestNodeIsLongest` | pdns/dnsname.hh:676-699 | the best node is the stored name closest to the query on its path |
| `SuffixTree.BestNodeMatchesMap` | pdns/dnsname.hh:676-699 | on a tree that represents a map, the best node is the longest match in the map |
| `SuffixTree.LongestInMeaning` | pdns/dnsname.hh:627-634 | the longest match is a stored name the query is part of and no longer one is stored; none means no stored name qualifies |
| `SuffixTree.LookupAfterAnyRun` | pdns/dnsname.hh:550-634 | after any sequence of additions and removals a lookup gives the longest match in the map they amount to |
| `SuffixTree.LightKeyAgrees` | pdns/dnsname.hh:497-537 | the light-weight key orders labels as the children are ordered |
| `SuffixTree.SuffixMatchTree.Add` | pdns/dnsname.hh:550-578 | the represented map gains the name, case-folded |
| `SuffixTree.SuffixMatchTree.Remove` | pdns/dnsname.hh:580-625 | the represented map loses the name and nothing else |
| `SuffixTree.SuffixMatchTree.Lookup` | pdns/dnsname.hh:627-634 | returns the longest match in the represented map |
| `SuffixTree.GetBestNode` | pdns/dnsname.hh:676-699 | the descent driven by the label visitor finds the best node |
| `Burtle.HashCI` | pdns/burtle.hh:120-180 | hashing with each octet lower-cased on the fly equals hashing the lower-cased key, wrap-around included |
| `Burtle.KnownValue` | pdns/burtle.hh:60-118 | the value for one key of a block and eleven octets |
| `Burtle.SpellingsShareShard` | pdns/auth-querycache.hh:109-112 | spellings of one name land in one shard |
| `CacheCleaner.LowerBound` | pdns/cachecleaner.hh:262-264 | finds the first entry not sorting before the name |
| `CacheCleaner.SuffixRangeExact` | pdns/cachecleaner.hh:253-276 | from there to the first non-member lie exactly the entries under the suffix |
| `CacheCleaner.NameRangeExact` | pdns/cachecleaner.hh:278-291 | the equal range holds exactly the spellings of the name |
| `CacheCleaner.EraseRange` | pdns/cachecleaner.hh:266-272 | erasing an exact index range leaves the other entries in order and counts the erased ones |
| `CacheCleaner.KeepLeaves` | pdns/cachecleaner.hh:253-291 | what a purge keeps, position by position: all entries that are not selected, in order |
| `CacheCleaner.PurgeShard` | pdns/cachecleaner.hh:253-276 | one shard loses exactly the entries under the suffix, and the count is their number |
| `CacheCleaner.PurgeExactShard` | pdns/cachecleaner.hh:278-291 | a shard loses exactly the entries of the name, and the count is their number |
| `CacheCleaner.PurgeAll` | pdns/cachecleaner.hh:239-251 | every shard is emptied, and the sizes added up are the total before |
| `CacheCleaner.PurgeSuffix` | pdns/cachecleaner.hh:253-276 | every shard loses exactly the entries under the suffix; the count is the difference of the totals |
| `CacheTrimmer.QuotaFits` | pdns/cachecleaner.hh:211-237 | a shard's rounded share is at most what it holds and what is needed, and leaves the rest no more than it holds |
| `CacheTrimmer.TrimExact` | pdns/cachecleaner.hh:211-237 | the trim phase removes exactly toTrim entries |
| `CacheTrimmer.TrimOldest` | pdns/cachecleaner.hh:211-237 | each shard is left with a suffix of its sequence: the oldest go first |
| `CacheTrimmer.TrimShare` | pdns/cachecleaner.hh:211-237 | every shard loses its share: with t to go from c entries, one of s entries loses g with 2ts - c < 2cg <= 2ts + c |
| `CacheTrimmer.EqualShards` | pdns/cachecleaner.hh:187-237 | shards of one size next to each other lose numbers that differ by at most one |
| `CacheTrimmer.ApartTheyDiffer` | pdns/cachecleaner.hh:187-237 | with three small shards in between, two shards of ten entries lose three and five |
| `CacheTrimmer.ScannedLeaves` | pdns/cachecleaner.hh:106-132 | scanning leaves, position by position, all but the stale ones among the first k |
| `CacheTrimmer.ScanAllLeaves` | pdns/cachecleaner.hh:156-181 | in the first phase the entry with x before it goes iff it is stale and x is at most the shard's share of lookAt, rounded up |
| `CacheTrimmer.LookAtIs` | pdns/cachecleaner.hh:141-150 | a tenth of the cache is looked at, or five times the excess where that is more |
| `CacheTrimmer.PrunedExact` | pdns/cachecleaner.hh:134-237 | above the limit the cache ends with exactly maxCached entries, or fewer when more were stale; live entries go only when the scan did not suffice, and then oldest first |
| `CacheTrimmer.PrunedBelowLimit` | pdns/cachecleaner.hh:141-185 | within the limit only scanned stale entries go |
| `CacheTrimmer.ScanExpired` | pdns/cachecleaner.hh:106-132 | the erasing scan removes exactly the stale entries among the first k |
| `CacheTrimmer.ScanUntil` | pdns/cachecleaner.hh:49-65 | the scan with early exit stops exactly when enough is gone, the allowance is used up or the end is reached |
| `CacheTrimmer.PruneCollection` | pdns/cachecleaner.hh:33-78 | within the limit the stale entries looked at go; above it exactly maxCached stay, live ones going oldest first only after a full look |
| `CacheTrimmer.PruneLocked` | pdns/cachecleaner.hh:106-132 | each shard loses exactly the stale entries in its first tenth, and the count is exact |
| `CacheTrimmer.ScanPhase` | pdns/cachecleaner.hh:156-181 | the first phase scans each shard's share and counts what went |
| `CacheTrimmer.TrimPhase` | pdns/cachecleaner.hh:211-237 | the second phase, called with the true size, never divides by zero and removes the shares |
| `CacheTrimmer.Prune` | pdns/cachecleaner.hh:134-237 | both phases together, with the exact number of removed entries |
| `QueryCache.LookupExact` | pdns/auth-querycache.cc:118-136 | what a shard holds for a key is what the abstract view answers |
| `QueryCache.PushConsistent` | pdns/auth-querycache.cc:98-103 | inserting or replacing makes the view remember the new answer |
| `QueryCache.PopConsistent` | pdns/auth-querycache.cc:105-112 | making room forgets exactly one answer of that shard |
| `QueryCache.PurgeConsistent` | pdns/auth-querycache.cc:167-191 | a purge forgets exactly what it covers |
| `QueryCache.CleanupConsistent` | pdns/auth-querycache.cc:193-200 | a cleanup loses no answer that could still be given |
| `QueryCache.LatestIsLastInsert` | pdns/auth-querycache.cc:73-136 | the remembered answer is that of the latest accepted insert not covered by a later purge |
| `QueryCache.SameKey` | pdns/auth-querycache.hh:83-87 | questions share an entry iff name, up to case, type and zone agree |
| `QueryCache.WithoutKeyLeaves` | pdns/auth-querycache.cc:98-103 | replacing an entry leaves all others in order |
| `QueryCache.AuthQueryCache.GetEntry` | pdns/auth-querycache.cc:55-71 | a hit is exactly the unexpired, unevicted answer of the view, and so of the latest uncovered insert |
| `QueryCache.AuthQueryCache.Insert` | pdns/auth-querycache.cc:73-116 | the view remembers the answer, at most one other is evicted, the counter stays the sum of shard sizes and does not grow past the limit; the entry ends at the back of its shard, where it replaced the one with its key or, in a full cache, pushed out the front |
| `QueryCache.AuthQueryCache.Purge` | pdns/auth-querycache.cc:160-165 | everything is forgotten, and the sum of the shard sizes it returns is what the counter said |
| `QueryCache.AuthQueryCache.PurgeUnder` | pdns/auth-querycache.cc:178-191 | exactly the answers under the suffix are forgotten, every shard keeps the others in order, and the count is exact |
| `QueryCache.AuthQueryCache.PurgeExact` | pdns/auth-querycache.cc:167-176 | exactly the answers for the name are forgotten although one shard is touched; every shard keeps the others in order |
| `QueryCache.AuthQueryCache.Cleanup` | pdns/auth-querycache.cc:193-200 | in every shard exactly the stale entries among the first tenth, rounded up, are gone and the others stay in order; the counter drops by their number; no answer is lost |
| `ZoneCache.AuthZoneCache.GetEntry` | pdns/auth-zonecache.cc:48-68 | finds the id stored for the zone |
| `ZoneCache.AuthZoneCache.LogUpdate` | pdns/auth-zonecache.cc:228-233 | an update is logged iff a replace is pending |
| `ZoneCache.AuthZoneCache.StoreUpdate` | pdns/auth-zonecache.cc:235-250 | exactly the zone's entry changes, and the counter follows |
| `ZoneCache.AuthZoneCache.Apply` | pdns/auth-zonecache.cc:223-273 | add and remove as a whole; nothing happens when the cache is off |
| `ZoneCache.AuthZoneCache.SetReplacePending` | pdns/auth-zonecache.cc:275-285 | starts a new log |
| `ZoneCache.AuthZoneCache.Merge` | pdns/auth-zonecache.cc:157-195 | the shards to put in place show the last logged update of each zone, else its row, and their entries are counted |
| `ZoneCache.AuthZoneCache.InstallShard` | pdns/auth-zonecache.cc:197-201 | one shard is replaced and nothing else |
| `ZoneCache.AuthZoneCache.FinishReplace` | pdns/auth-zonecache.cc:203-207 | log and pending flag are cleared, the counter set |
| `ZoneCache.AuthZoneCache.Replace` | pdns/auth-zonecache.cc:152-209 | the cache becomes the listing with the log replayed over it, shard by shard, and the counter is exact for duplicate-free listings |
| `ZoneCache.BuildMaps` | pdns/auth-zonecache.cc:157-171 | the new shards show the last row of each zone |
| `ZoneCache.ReplayLog` | pdns/auth-zonecache.cc:173-195 | replaying shows the last logged update of each zone, else its row |
| `ZoneRefresh.StepKeepsInv` | pdns/auth-zonecache.cc:152-285 | every step of any thread keeps the refresh invariant |
| `ZoneRefresh.RunKeepsInv` | pdns/auth-zonecache.cc:152-285 | so does every run |
| `ZoneRefresh.RefreshConverges` | pdns/auth-zonecache.cc:152-285 | after a replace, in every interleaving, cache and backend agree on each zone without an outstanding notification |
| `ZoneRefresh.NotificationProceeds` | pdns/auth-zonecache.cc:223-250 | the next notification of a zone can be delivered unless shards are being replaced, and takes effect |
| `ZoneRefresh.RefreshProceeds` | pdns/auth-zonecache.cc:152-209 | a refresh can always go on |
| `ZoneRefresh.LogStep` | pdns/auth-zonecache.cc:228-233 | the first critical section of add and remove is the protocol step, whatever the other threads do |
| `ZoneRefresh.StoreStep` | pdns/auth-zonecache.cc:235-250 | so is the second |
| `ZoneRefresh.SetPendingStep` | pdns/auth-zonecache.cc:275-285 | setReplacePending is the step that starts a listing |
| `ZoneRefresh.ReadRowStep` | pdns/auth-zonecache.cc:157-171 | reading a zone for the first time is adding its row to the listing |
| `ZoneRefresh.BeginReplaceStep` | pdns/auth-zonecache.cc:173-195 | merging listing and log under the lock computes what the step says |
| `ZoneRefresh.SwapShardStep` | pdns/auth-zonecache.cc:197-201 | installing a shard is a step, with stores of other threads in between |
| `ZoneRefresh.EndReplaceStep` | pdns/auth-zonecache.cc:203-207 | so is the end of a replace |
| `CatalogRoles.VersionFirst` | pdns/auth-secondarycommunicator.cc:404-429 | version records sort before all records below zones |
| `CatalogRoles.BelowMember` | pdns/auth-secondarycommunicator.cc:431-478 | the records of a member lie below its pointer record |
| `CatalogRoles.PropertiesAfter` | pdns/auth-secondarycommunicator.cc:431-478 | a member's pointer record sorts before its properties |
| `CatalogRoles.NoMemberBetween` | pdns/auth-secondarycommunicator.cc:431-478 | no other member sorts between a pointer record and the member's properties |
| `CatalogRoles.CanonicalOrder` | pdns/auth-secondarycommunicator.cc:388-389 | the three facts for every list of records in canonical order |
| `CatalogRecords.MemberRole` | pdns/auth-secondarycommunicator.cc:433-451 | a record is a member's pointer iff it is a PTR record at u.zones.<zone>; the member is the zone it names |
| `CatalogRecords.CooRole` | pdns/auth-secondarycommunicator.cc:459-468 | the same for owner changes at coo.u.zones.<zone> |
| `CatalogRecords.GroupRole` | pdns/auth-secondarycommunicator.cc:470-476 | and for groups at group.u.zones.<zone>, the quotes taken off |
| `CatalogRecords.AcceptsRecords` | pdns/auth-secondarycommunicator.cc:393-489 | validity in terms of the records: an SOA record at the apex, one version record of version 1 or 2, no two pointers with one label or one target, no member with two owner changes |
| `CatalogRecords.DescribesIs` | pdns/auth-secondarycommunicator.cc:433-477 | the members are those the pointer records make, each with the owner change and groups of the records at its own label |
| `CatalogParse.ScanZones` | pdns/auth-secondarycommunicator.cc:431-478 | what a record below zones does to the scan, by its role |
| `CatalogParse.ScanRecord` | pdns/auth-secondarycommunicator.cc:393-480 | what any record does to the scan, and when it aborts |
| `CatalogParse.OwnMemberIsLast` | pdns/auth-secondarycommunicator.cc:431-478 | in canonical order a record's own member, if any, is the one met last |
| `CatalogParse.MemberClash` | pdns/auth-secondarycommunicator.cc:433-457 | a pointer record makes the zone invalid iff its label or its zone was met before |
| `CatalogParse.CooClash` | pdns/auth-secondarycommunicator.cc:459-469 | a change-of-ownership record makes the zone invalid iff its member already has one |
| `CatalogParse.DraftGrows` | pdns/auth-secondarycommunicator.cc:459-477 | a property goes to its own member and no neighbour |
| `CatalogParse.StepMatches` | pdns/auth-secondarycommunicator.cc:393-480 | every record keeps the drafts equal to what the records so far describe |
| `CatalogParse.AbortRejects` | pdns/auth-secondarycommunicator.cc:404-429 | where the scan aborts no continuation is a valid catalog |
| `CatalogParse.EndDecides` | pdns/auth-secondarycommunicator.cc:485-489 | the final test passes iff the records form a valid catalog |
| `CatalogParse.SortSameRoles` | pdns/auth-secondarycommunicator.cc:388-389 | sorting keeps every role as often as it was |
| `CatalogParse.SortPermutes` | pdns/auth-secondarycommunicator.cc:388-389 | sorting keeps every record as often as it came |
| `CatalogParse.SortByType` | pdns/auth-secondarycommunicator.cc:388 | records of one name end up by type |
| `CatalogParse.DraftsDistinct` | pdns/auth-secondarycommunicator.cc:452-456 | the members of a valid catalog are distinct zones |
| `CatalogParse.Process` | pdns/auth-secondarycommunicator.cc:369-489 | accepts iff the records, in any order, form a valid catalog; m is a member iff a PTR record at u.zones.<zone> names its zone, with the owner change and groups the records at that label give; all but the apex SOA and NS records are disabled |
| `CatalogParse.ScanCatalog` | pdns/auth-secondarycommunicator.cc:369-489 | the scan of the sorted records decides this by the roles of the records |
| `CatalogParse.UpdateCatalog` | pdns/auth-secondarycommunicator.cc:369-498 | a valid catalog that is not listed as its own member is merged into the backend, any other leaves the backend alone |
| `CatalogParse.MembersFollowRecords` | pdns/auth-secondarycommunicator.cc:369-498 | after an update a zone is a member iff a pointer record of the catalog names it and it was absent, a member or handed over |
| `CatalogDiff.SortSorts` | pdns/auth-secondarycommunicator.cc:115-116 | sorting a duplicate-free list sorts it strictly |
| `CatalogDiff.GetMembers` | pdns/backends/gsql/gsqlbackend.cc:822-931 | lists exactly the secondaries and consumers that carry the catalog, a consumer with the member group added to its groups; refuses iff the catalog would be its own member |
| `CatalogDiff.CreateZone` | pdns/auth-secondarycommunicator.cc:270-305 | a created zone has the catalog, kind, options and primaries it should, whatever was there |
| `CatalogDiff.OnlyTransferred` | pdns/auth-secondarycommunicator.cc:217-305 | a zone only the transfer lists is created, moved here, reset or skipped; a zone that carries the catalog already is skipped |
| `CatalogDiff.InBoth` | pdns/auth-secondarycommunicator.cc:135-215 | a zone both lists have, compared as the backend shows it, is refreshed field by field or reset |
| `CatalogDiff.OnlyStored` | pdns/auth-secondarycommunicator.cc:270-284 | a zone only the backend lists is removed |
| `CatalogDiff.Diff` | pdns/auth-secondarycommunicator.cc:105-311 | the merge settles every zone: its record, the caches to clear and the transfers wanted are what the two lists say |
| `CatalogDiff.MembersAfterRun` | pdns/auth-secondarycommunicator.cc:105-311 | a zone is a member afterwards iff it is listed and was a member, absent, or handed over and either reset or a secondary; members have the transferred properties and the catalog's primaries, and so has a handed-over zone of another kind, which stays unlisted; members the transfer leaves out are gone, all else is untouched |
| `CatalogDiff.CachesAndTransfers` | pdns/auth-secondarycommunicator.cc:193-343 | caches are cleared for exactly the zones that appear, disappear or are reset, saying which; with no primaries nothing is queued, otherwise a transfer for exactly the zones created, taken over, or members with other primaries |
| `CatalogDiff.KindAfterRun` | pdns/auth-secondarycommunicator.cc:159-295 | a zone that is taken in ends with the kind its groups ask for iff it did not have the wrong one where the code does not look: moved without reset, a secondary stored with the member group, or any catalog when no member group is set |
| `CatalogDiff.SecondRunChangesNothing` | pdns/auth-secondarycommunicator.cc:105-311 | a second run clears no cache and queues no transfer; it changes a zone iff that was moved here as a catalog outside the member group, and then makes it a secondary |
| `CatalogDiff.ThirdRunChangesNothing` | pdns/auth-secondarycommunicator.cc:105-311 | a third run changes nothing |
| `CatalogDiff.MovedCatalogChangesLater` | pdns/auth-secondarycommunicator.cc:231-242 | a catalog handed over and listed without group is still a catalog after the first run and a secondary after the second |
| `Ixfr.GroupUpdates` | pdns/auth-secondarycommunicator.cc:571-578 | each group holds exactly the updates of its name and type, in order |
| `Ixfr.EditSet` | pdns/auth-secondarycommunicator.cc:591-602 | a set loses every copy of the removed records and gains the added ones |
| `Ixfr.GroupedMeansOneByOne` | pdns/auth-secondarycommunicator.cc:571-618 | replacing a touched set is applying the delta record by record |
| `Ixfr.UntouchedStays` | pdns/auth-secondarycommunicator.cc:571-618 | sets no update names are unchanged |
| `Ixfr.HeldAfter` | pdns/auth-secondarycommunicator.cc:591-602 | a record is there after a delta iff added, or there before and not removed |
| `Ixfr.ApplyDelta` | pdns/auth-secondarycommunicator.cc:571-619 | the whole zone after the loop over groups is the zone after record-by-record application, and the serial is that of the last replaced set with an SOA record |
| `Ixfr.SerialUnique` | pdns/auth-secondarycommunicator.cc:605-613 | that serial is determined by the replaced sets |
| `Ixfr.WellKeyedKept` | pdns/auth-secondarycommunicator.cc:581-618 | sets keep holding records of their own name and type |
| `Ixfr.SerialOfNewSoa` | pdns/auth-secondarycommunicator.cc:605-613 | with SOA updates at the apex only it is the serial of the SOA record the zone ends up with |
| `Ixfr.FindLuaUpdates` | pdns/auth-secondarycommunicator.cc:525-552 | detects exactly the deltas that mention LUA records |
| `Ixfr.ApplyDeltas` | pdns/auth-secondarycommunicator.cc:525-620 | all deltas before the first without removals are applied and leave their serials one after the other, that one is handed back as a full transfer; refused LUA updates change nothing |
| `Ixfr.RunKeepsMeaning` | pdns/auth-secondarycommunicator.cc:555-620 | after a run a record is there iff the last delta naming it says so |
| `TransferQueue.BlockedByTarget` | pdns/auth-secondarycommunicator.cc:62-73 | an insertion fails only on a queued (domain, primary), and that element is reported |
| `TransferQueue.NothingDropped` | pdns/auth-secondarycommunicator.cc:74-80 | modifying never drops an element |
| `TransferQueue.WokenFindsWork` | pdns/communicator.cc:46-53 | a woken thread never finds the queue empty |
| `TransferQueue.StepKeeps` | pdns/communicator.cc:43-65 | every step of any thread keeps the queue invariant |
| `TransferQueue.TransfersAreSafe` | pdns/auth-secondarycommunicator.cc:751-760 | in every interleaving: semaphore plus woken threads equals queue length, numbers are distinct and below the counter, and no two threads transfer one zone |
| `TransferQueue.RequestIsQueued` | pdns/auth-secondarycommunicator.cc:59-81 | after a request its target is queued once, as asked for or, if queued before, at exactly the better of the two priorities; other requests stay, and the semaphore grows iff the queue does |
| `TransferQueue.SomeFirst` | pdns/communicator.cc:55-57 | a queue that is not empty has a first element by priority and arrival |
| `TransferQueue.WorkProceeds` | pdns/communicator.cc:43-65 | with a request to be had, a waiting thread can wake up, take the first one and begin or drop it |
| `TransferQueue.Communicator.AddSuckRequest` | pdns/auth-secondarycommunicator.cc:59-81 | the critical section is the protocol step |
| `TransferQueue.Communicator.TakeRequest` | pdns/communicator.cc:48-62 | takes the request with the best priority, the oldest among equals, and resets the counter when the queue empties |
| `TransferQueue.Communicator.BeginTransfer` | pdns/auth-secondarycommunicator.cc:753-760 | goes on iff the zone is not in progress, and marks it |
| `TransferQueue.Communicator.EndTransfer` | pdns/communicator.hh:243-259 | unmarks the zone |
| `ZoneTree.AncestorsAre` | pdns/dbdnsseckeeper.cc:944-946 | chopping labels visits exactly the names above, down to the apex, and to the root from a name outside the zone |
| `ZoneTree.AuthorityInZone` | pdns/dbdnsseckeeper.cc:904-909 | with all delegations in the zone a search to the root finds what a search to the apex finds |
| `ZoneTree.TopCut` | pdns/dbdnsseckeeper.cc:866-871 | above every occluded name there is a delegation that is not occluded |
| `ZoneTree.EntsInZone` | pdns/dbdnsseckeeper.cc:946-973 | owners in the zone have their empty non-terminals in the zone |
| `ZoneTree.StrayEnts` | pdns/dbdnsseckeeper.cc:946-973 | an owner outside the zone makes everything above it, up to the root, an owner or an empty non-terminal |
| `OrderNames.RelativeOrderIs` | pdns/dnsname.cc:403-419 | the NSEC order name of p.<zone> is p; a name outside the zone has none |
| `OrderNames.RelativeOrderCuts` | pdns/dnsname.cc:403-419 | it is the name without the labels of the zone |
| `OrderNames.BelowCut` | pdns/dbdnsseckeeper.cc:863-872 | true iff a delegation is above the name |
| `OrderNames.CollectChain` | pdns/dbdnsseckeeper.cc:860-882 | the NSEC3 set is the contributing names that are not occluded and everything above them |
| `OrderNames.ChainClosed` | pdns/dbdnsseckeeper.cc:875-881 | everything above a name of the set is in it, and nothing below a delegation is |
| `OrderNames.PlainChain` | pdns/dbdnsseckeeper.cc:860-882 | without opt-out the set is exactly the owner names and empty non-terminals that are not below a delegation |
| `OrderNames.OptOutChain` | pdns/dbdnsseckeeper.cc:874-881 | with opt-out an owner is in the set iff it has a record other than NS and is not below a delegation |
| `OrderNames.OptOutEnts` | pdns/dbdnsseckeeper.cc:874-881 | with opt-out an empty non-terminal is in the set iff such an owner is below it |
| `ZoneTree.EntsGrow` | pdns/auth-secondarycommunicator.cc:1052-1069 | a further owner adds exactly its ancestors without records |
| `AxfrImport.Collect` | pdns/auth-secondarycommunicator.cc:634-719 | exactly the records of the zone other than NSEC, NSEC3 and NSEC3PARAM, with their owner names and delegations |
| `AxfrImport.Climb` | pdns/auth-secondarycommunicator.cc:1033-1050 | from owner to apex: the ancestors without records, and false iff a delegation is on the way and the record is no DS |
| `AxfrImport.AddEnts` | pdns/auth-secondarycommunicator.cc:1062-1069 | the names above a record are added, and marked if it counts as authoritative |
| `AxfrImport.Import` | pdns/auth-secondarycommunicator.cc:1023-1121 | what is fed for each record, order name and flag, and for each empty non-terminal of the kept records; these are given up iff there are more than allowed |
| `AxfrImport.NsecFed` | pdns/auth-secondarycommunicator.cc:1096-1104 | in an NSEC zone a record at p.<zone> is fed with p if it is authoritative, NS or DS |
| `AxfrImport.Nsec3Fed` | pdns/auth-secondarycommunicator.cc:1086-1094 | in an NSEC3 zone that is not narrow it is fed with its hash if authoritative, DS, or NS that does not opt out |
| `AxfrImport.FedWithout` | pdns/auth-secondarycommunicator.cc:1106-1121 | everything else is fed without order name |
| `AxfrImport.UnfilteredKeepsAll` | pdns/auth-secondarycommunicator.cc:1023-1031 | with nothing filtered out all owners count |
| `EmptyNonTerminals.FoundEnt` | pdns/dbdnsseckeeper.cc:957-969 | one empty non-terminal found keeps the insert and delete sets, the flags and the allowance exact |
| `EmptyNonTerminals.WalkEnts` | pdns/dbdnsseckeeper.cc:944-973 | the walk from one owner adds its ancestors without records and marks them iff it is authoritative, or gives up with the allowance used up |
| `EmptyNonTerminals.VisitsMeet` | pdns/dbdnsseckeeper.cc:944-973 | the walks from all owners meet exactly the ancestors without records |
| `EmptyNonTerminals.SomeLeast` | pdns/dnsname.hh:240-253 | a set of names has a first one in its order |
| `EmptyNonTerminals.WalkEndsTopmost` | pdns/dbdnsseckeeper.cc:944-973 | a walk ends at the empty non-terminal closest to the apex and visits it once |
| `EmptyNonTerminals.AtTheLimit` | pdns/dbdnsseckeeper.cc:948-954 | with exactly as many empty non-terminals as allowed it goes through iff the topmost one of the last owner that has one has no other owner below it |
| `EmptyNonTerminals.AffordsIffCompletes` | pdns/dbdnsseckeeper.cc:899-973 | whether the code gives up, said of the zone and the limit alone: below the limit never, above it always, at the limit as just said |
| `Rectify.ListZone` | pdns/dbdnsseckeeper.cc:811-834 | records, owners, delegations, signers and stored empty non-terminals; an update is noted for a name exactly when its rows look different, are listed with or without an order name against the kind of zone, or belong to the apex of an unordered one |
| `Rectify.SkipTestIff` | pdns/dbdnsseckeeper.cc:922-926 | the code skips a name exactly when all its rows are listed with the flag and order name they should have |
| `Rectify.SkipSoundIff` | pdns/dbdnsseckeeper.cc:922-926 | a skipped update would have changed nothing iff no row of the name stores the empty string, which the listing shows as unset |
| `Rectify.KeepsEmptyString` | pdns/dbdnsseckeeper.cc:922-926 | an address record of an unsigned zone stored with the empty string keeps it although its order name should be unset |
| `Rectify.OutcomeRight` | pdns/dbdnsseckeeper.cc:899-942 | the flag of every row ends right whatever was skipped, and the whole row exactly when it is not a stale one |
| `Rectify.StaleOnlyBelowApex` | pdns/dbdnsseckeeper.cc:814-820 | a row stays stale only in an unsigned or narrow zone, below the apex, and storing the empty string |
| `Rectify.FindAuth` | pdns/dbdnsseckeeper.cc:899-910 | true iff no name from the owner up to the root is a delegation |
| `Rectify.RectifyName` | pdns/dbdnsseckeeper.cc:922-942 | what the conditional update and the updates by type make of each row of the name; other rows are unchanged |
| `Rectify.UpdatedIsOutcome` | pdns/dbdnsseckeeper.cc:922-942 | these updates give each row what the whole zone says it should have, or leave it stale |
| `Rectify.RectifyOwners` | pdns/dbdnsseckeeper.cc:899-973 | after the loop over owners their rows are final and the empty non-terminals and their flags collected |
| `Rectify.RectifyEnts` | pdns/dbdnsseckeeper.cc:981-1003 | every empty non-terminal gets its order name and flag, a stored one unless it is skipped |
| `Rectify.EntOutcomeRight` | pdns/dbdnsseckeeper.cc:997-1001 | the flag of an empty non-terminal ends right, and its order name unless an empty string is skipped |
| `Rectify.OwnerOrder` | pdns/dbdnsseckeeper.cc:911-920 | the order name of an owner: relative to the zone with NSEC; with NSEC3 its hash iff it is not below a delegation and, with opt-out, has a record other than NS |
| `Rectify.RecordOrder` | pdns/dbdnsseckeeper.cc:922-942 | a record gets its owner's order name, except A, AAAA and opted-out NS records at or below a delegation |
| `Rectify.NsecOrder` | pdns/dbdnsseckeeper.cc:917-920 | in an NSEC zone a record at p.<zone> ends with the order name p, one outside the zone without |
| `Rectify.Nsec3Order` | pdns/dbdnsseckeeper.cc:911-916 | in an NSEC3 zone it is the hash, and when there is none |
| `Rectify.UnsignedOrder` | pdns/dbdnsseckeeper.cc:911-926 | in an unsigned zone there is none unless the row is stale |
| `Rectify.OptOutEnt` | pdns/dbdnsseckeeper.cc:986-995 | with opt-out an empty non-terminal has its hash iff an owner below it, not only of NS records, is not below a delegation |
| `Rectify.PlainEnt` | pdns/dbdnsseckeeper.cc:981-995 | with NSEC3 without opt-out an empty non-terminal is authoritative and has its hash iff it is not below a delegation |
| `Rectify.OtherEnt` | pdns/dbdnsseckeeper.cc:964-968 | otherwise it is authoritative iff an authoritative owner is below it |
| `Rectify.RectifyZone` | pdns/dbdnsseckeeper.cc:811-1005 | every row ends with the order name and flag the zone asks for or, exactly when stale, as it was; new empty non-terminals come with theirs; the names inserted and deleted are disjoint and turn the stored empty non-terminals into exactly the ancestors without records; it gives up on them exactly when the zone and the limit say so |
| `Rectify.RectifiedFlag` | pdns/dbdnsseckeeper.cc:899-942 | a record is to be authoritative iff it is a DS or no name from its owner up to the root is a delegation |
| `Rectify.FlagInZone` | pdns/dbdnsseckeeper.cc:904-909 | in a zone without stray delegations the search may stop at the apex |
| `Rectify.StrayDelegation` | pdns/dbdnsseckeeper.cc:904-909 | a delegation stored above the apex leaves no name of the zone authoritative |
| `Rectify.RectifiedTwice` | pdns/dbdnsseckeeper.cc:811-1005 | rectifying again changes exactly the stale rows of signed delegations, whose DS records got another flag, and no empty non-terminal |
| `RectifyAndImport.FlagsAgree` | pdns/auth-secondarycommunicator.cc:1034-1050 | apart from RRSIG records rectifying and importing leave the same flags |
| `RectifyAndImport.OrdersAgree` | pdns/auth-secondarycommunicator.cc:1084-1109 | a record ends with the same order name iff its row is not stale and its type and place are among those listed, signing by signing |
| `RectifyAndImport.SignedDelegationLeftOut` | pdns/auth-secondarycommunicator.cc:1089-1093 | with opt-out and no hashes from the transfer the NS record of a signed delegation is imported without order name, and rectifying gives it its hash |
| `RectifyAndImport.OneSignedDelegation` | pdns/auth-secondarycommunicator.cc:1089-1093 | a zone of three records where that happens |
| `RectifyAndImport.EntsAgree` | pdns/auth-secondarycommunicator.cc:1033-1077 | with nothing filtered out rectifying and importing keep the same empty non-terminals, except exactly at the limit with a repeated last visit; below the limit neither gives up and both keep all of them |
| `RectifyAndImport.GivesUpAtTheLimit` | pdns/dbdnsseckeeper.cc:948-954 | two owners below one empty non-terminal and an allowance of one: rectifying drops it, the import keeps it |
| `RectifyAndImport.ImportedFlag` | pdns/auth-secondarycommunicator.cc:1052-1069 | the import flags an empty non-terminal iff an authoritative owner, a DS record or an NS record that counts is below it |
| `RectifyAndImport.EntFlagsAgree` | pdns/auth-secondarycommunicator.cc:1052-1069 | the two flags of an empty non-terminal agree iff rectifying takes it for authoritative or no DS or counting NS record is below it |
| `RectifyAndImport.EntOrdersAgree` | pdns/backends/gsql/gsqlbackend.cc:2297-2337 | when the two order names of an empty non-terminal agree |
| `RectifyAndImport.LoneDelegation` | pdns/auth-secondarycommunicator.cc:1054-1060 | above nothing but a delegation of an unsigned or NSEC zone the two flags differ |
| `Base32Hex.BitsInOne` | pdns/base32.cc:36-81 | writing extracted bits back into one octet restores them |
| `Base32Hex.FiveMore` | pdns/base32.cc:36-81 | writing digit k of a group behind the first 5k bits gives its first 5k + 5 bits |
| `Base32Hex.SetBlockBits` | pdns/base32.cc:57-81 | the in-place form has the effect of the modelled one |
| `Base32Hex.EncodeGroup` | pdns/base32.cc:104-124 | digits and stuffing of one group |
| `Base32Hex.ToBase32Hex` | pdns/base32.cc:98-127 | the loop over groups computes the encoding |
| `Base32Hex.FromBase32Hex` | pdns/base32.cc:130-149 | the loop over digits computes the decoding, stopping at stuffing or an error |
| `Base32Hex.GroupBits` | pdns/base32.cc:36-54 | the digits of a group are its forty bits, five by five |
| `Base32Hex.RoundTrip` | pdns/base32.cc:98-149 | decoding an encoding returns every octet string unchanged |
| `Base32Hex.OrderKept` | pdns/base32.cc:98-127 | for strings of one length the encodings are ordered as the strings |
| `Base32Hex.DigitIs` | pdns/base32.cc:100 | the digits are 0 to 9 and a to v |
| `Base32Hex.FilledWithZeros` | pdns/base32.cc:36-54 | a group that is not full counts as filled up with zeros |
| `Base32Hex.StuffingIs` | pdns/base32.cc:108-121 | it has just the digits its octets need |
| `Base32Hex.UndigitIs` | pdns/base32.cc:84-95 | which octets are digits, and of which value |
| `Base32Hex.CaseIgnored` | pdns/base32.cc:84-149 | texts that differ only in the case of letters are decoded alike |
| `Distributor.CounterExact` | pdns/distributor.hh:347-359 | every step keeps the counter equal to the questions between increment and decrement, so it never goes below zero |
| `Distributor.StepConserves` | pdns/distributor.hh:197-270 | every step keeps each question in exactly one place |
| `Distributor.StepRoutes` | pdns/distributor.hh:347-359 | a question reaches the worker its id names |
| `Distributor.QuestionsAreConserved` | pdns/distributor.hh:197-270 | in every interleaving each question handed in is waiting, worked on, answered by one callback, timed out or unsent, and the counter is exact |
| `Distributor.StepAccounts` | pdns/distributor.hh:214-263 | every step keeps tries and replies in order: a second try exactly after a backend at hand failed, with the backend gone |
| `Distributor.EveryReplyIsRight` | pdns/distributor.hh:197-270 | in every interleaving a question that got its callback was tried once, or twice exactly when a backend at hand failed first, and was given the last try's answer, or ServFail exactly when that failed; one that timed out was never tried |
| `Distributor.WorkerLikeUnthreaded` | pdns/distributor.hh:214-263 | the tries a worker makes end as the unthreaded distributor does with the same events: reply, callback and backend kept |
| `Distributor.JudgedByAge` | pdns/distributor.hh:215-218 | a question is dropped iff there is a limit and it waited longer |
| `Distributor.PipeIsFifo` | pdns/distributor.hh:197-207 | a worker gets its questions in the order they were written |
| `Distributor.NeverStuck` | pdns/distributor.hh:197-270 | while a question waits or is worked on, someone can go on with one |
| `Distributor.AnswerQuestion` | pdns/distributor.hh:291-342 | the unthreaded form: at most two tries, the second only after a backend at hand failed; the one reply is the last try's answer, or ServFail exactly when that failed, and then the backend is dropped |

## Left out

- The packet cache: its key comparison and hash are not modelled; shards, purging and trimming are those of the query cache.
- Text names with escapes, `pretty` comparison, `getBestMatch`, and removal of subtrees from the suffix tree.
- Hash quality: beyond one known value only that the hash ignores case matters here.
- Cleaning intervals of the query cache (`cleanupIfNeeded`) and hit and miss statistics.
- CacheTrimmer.Prune: is stated for a cacheSize equal to the sum of the shard sizes; with any other value the trim phase has no exact result.
- ZoneCache.AuthZoneCache.Replace: leaves the counter unspecified for listings that name a zone twice.
- ZoneRefresh.RefreshConverges: assumes that notifications of one zone follow its backend changes in order and do not overlap.
- CatalogDiff.Diff: starts from duplicate-free lists, as `CatalogParse.Process` and `CatalogDiff.GetMembers` make them; transactions and exceptions are not modelled, nor is the order in which options are written as JSON.
- CatalogDiff.GetMembers: stored rows that do not parse (names, options, primaries) are not modelled.
- CatalogDiff.CachesAndTransfers: which of the primaries a transfer is asked of is random in the source and not modelled.
- CatalogParse.Process: contents of PTR records are taken as parsed names.
- Ixfr.ApplyDeltas: transactions, and names too long for the zone.
- TransferQueue.Communicator.AddSuckRequest: the order counter is 64 bits wide; runs with 2^64 requests in a queue that never empties are excluded.
- Rectify.RectifyZone: presigned zones and zones without SOA record, which the source refuses, are not told apart; backends without DNSSEC columns are not modelled.
- AxfrImport.Import: the hashes that transferred NSEC3 records show as delegations are an input.
- ZoneRefresh.ReadRowStep: a listing that comes to a zone twice is a step of the protocol but not of the object.
- Base32Hex.SetBits: bit ranges other than five bits.
- Distributor.QuestionsAreConserved: excludes 2^32 questions waiting at once; the overload limit that ends the process is not modelled.
- Sockets, TSIG, Lua filters, logging, statistics and configuration.
