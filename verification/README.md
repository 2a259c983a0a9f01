# NetworkMapper verification model

A Dafny model of NetworkMapper's path from evidence to conclusions, with proofs of what that path promises: discovery
and enrichment providers retain observations; the observations are resolved into canonical identities and canonical
relationships; those are presented, exported as CSV, written as a strict replay artifact, and later replayed and
compared. `dafny verify dfyconfig.toml` checks the whole project.

## What is proved

- **A run concludes only about discovered devices.** For every list of providers, in every order, with any of the
  enrichment providers failing at any point, every identity observation is about a discovered address; hence every
  canonical identity and both endpoints of every canonical relationship are discovered devices (`Engine.dfy`). A
  provider that raises leaves no trace, the log is append-only, and later providers only strengthen edges. An edge is
  concluded exactly when its two different ends are known and some provider that did not fail supports the claim over
  the snapshot it received (`RunExact.dfy`).
- **Resolution is a function of the evidence.** Each resolver is specified by a predicate on the *multiset* of
  observations that has one solution; the resolver's dictionaries, sets and sorts compute it. Order independence,
  conservation of evidence, exactness of conflicts and monotone corroboration follow, also for the composed pipeline
  in which identities are recomputed from the same observations (`IdentityResolution.dfy`,
  `RelationshipResolution.dfy`, `Pipeline.dfy`). The state of every identity and every edge is then read off the claims
  themselves, and the order of everything off its fields (`ConclusionsExact.dfy`).
- **The artifact is canonical and its parser strict.** A JSON tree, with objects as lists of pairs so that duplicate
  keys are visible (section 4 of RFC 8259), is accepted as a list exactly when it is the writer's document for that
  list up to the order of keys; two lists serialize alike exactly when they are permutations (`ReplayFormat.dfy`).
  That document is spelled out name by name, and so is the first reason for which any other is refused
  (`FormatExact.dfy`); timestamps are spelled out character by character (`IsoExact.dfy`).
- **Every exported run replays as MATCH.** The CSV rows take the presentation's regrouping, the replay starts from
  reordered records, and the rows still agree in order (`Presentation.dfy`, `CsvExport.dfy`, `Replay.dfy`). Each cell of
  the exported file is stated from the observations (`ExportExact.dfy`), and so is the exit code of a replay of any run
  directory whatever (`ReplayExact.dfy`).
- **The supporting books balance.** SNMP row indexes decode and join exactly (`SnmpRows.dfy`, `SnmpTables.dfy`; section
  7.7 of RFC 2578 for the INDEX encoding), their texts are exact (`SnmpExact.dfy`), as is which attribute of a device an
  observed value becomes (`AttributesExact.dfy`), the MAC index is the claim relation (`MacIndex.dfy`), the benchmark's
  four structures agree and count what they are about (`Benchmark.dfy`, `BenchmarkExact.dfy`), and so do the counts and
  totals of a report comparison (`ReportComparison.dfy`, instantiated for the reports the benchmark prints in
  `BenchmarkComparison.dfy`).

Three promises turned out to hold only under a condition, which is proved to be exact:

- `next_observation_id` says identifiers are never reused. They are not while no file is numbered 999,999; after that
  `1000000` is written under a name the reader's pattern does not match, so it is handed out again and the next save
  overwrites it (`ObservationIds.NeverReusedExactly`, with a directory where it happens in
  `ObservationIds.ReuseHappens`).
- Splitting a flattened `expected -> actual` key recovers the names exactly when the first name contains no separator
  *and* does not end in its first three characters (`ReportComparison.SplitInverts`). The comparison's deltas add up
  for every choice of counts exactly when each cell survives flattening, off the diagonal, if and only if its two names
  differ (`ReportComparison.AddsUpExactly`).
- The ARP and management-address parsers read a fixed number of components and ignore the rest, so rows are told apart
  by exactly those components (`SnmpRows.ArpKeysTellApart`, `SnmpRows.TrailingComponentsCollide`).

## How it is organised

`Ordering`, `Grouping`, `Sums`, `Decimal`, `Dotted` and `Json` hold the mathematics the rest shares: a total order on
strings and keys and the uniqueness of sorted arrangements, insertion-ordered grouping, sums over sets, printed numbers
and JSON trees. Loops of the program are methods proved against functions, and the lemmas speak about those functions;
the engine, its providers, the graph and the repository are classes. Client calls, clocks and run identifiers are
parameters: a client is an arbitrary function from hosts to answers, a stamp fixes the run identifier and time of a
provider call, and an unexpected provider defect may strike before any host.

## Model

| member | source | states |
|---|---|---|
| `IdentityResolution.ResolutionUnique` | networkmapper/identity/resolver.py:57-184 | A multiset of identity observations admits one resolution only: one identity per observed subject, one property per name, evidence sorted by the total key, states decided by distinct values and distinct sources |
| `IdentityResolution.ResolveIsResolution` | networkmapper/identity/resolver.py:57-137 | What the resolver returns is that resolution, for every observation list |
| `IdentityResolution.OrderIndependent` | networkmapper/identity/resolver.py:57-79 | Equal multisets of observations give equal identities, properties and evidence order, also when observations differ only in run or timestamp |
| `IdentityResolution.SamePropertyTiesEqual` | networkmapper/identity/resolver.py:166-184 | Within one property, observations that tie on the sort key are equal, so sorting leaves no freedom |
| `IdentityResolution.TallyExact` | networkmapper/identity/resolver.py:114-117 | The per-source value sets hold a value exactly when that source claimed it |
| `IdentityResolution.TallyCountsSources` | networkmapper/identity/resolver.py:119-129 | The size of the per-source dictionary is the number of distinct (provider, method) pairs |
| `IdentityResolution.TallyCountsValues` | networkmapper/identity/resolver.py:119-129 | The union of the per-source sets counts the distinct claimed values |
| `IdentityResolution.ValuesBySource` | networkmapper/identity/resolver.py:114-117 | The dictionary-of-sets loop builds that tally |
| `IdentityResolution.ResolveProperty` | networkmapper/identity/resolver.py:104-137 | The property loop returns the specified record: sorted evidence and its state |
| `IdentityResolution.ResolveSubject` | networkmapper/identity/resolver.py:81-102 | The subject loop groups by property name, sorts the properties and rolls the state up |
| `IdentityResolution.ResolveIdentities` | networkmapper/identity/resolver.py:57-79 | The grouping loop returns the resolution of the whole list |
| `RelationshipResolution.ResolutionUnique` | networkmapper/relationships/resolver.py:114-231 | A multiset of surviving observations admits one resolution under a policy: one record per observed edge, sorted by edge, with exactly its evidence, its cardinality and its state |
| `RelationshipResolution.ResolveIsResolution` | networkmapper/relationships/resolver.py:136-214 | The resolver's output is that resolution, and every record in it passes the constructor checks |
| `RelationshipResolution.OrderIndependent` | networkmapper/relationships/resolver.py:114-166 | Permuting observations, or permuting and repeating identities, gives an equal output under any policy |
| `RelationshipResolution.SameEdgeTiesEqual` | networkmapper/relationships/resolver.py:217-231 | Within one edge, observations that tie on every sorted field are equal |
| `RelationshipResolution.SameSurvivorsSameOutput` | networkmapper/relationships/resolver.py:125-144 | Only the multiset of observations that pass the endpoint and self-loop filters matters |
| `RelationshipResolution.NoiseDoesNotInterfere` | networkmapper/relationships/resolver.py:125-144 | Deleting identity observations, self-loops and unresolved endpoints beforehand leaves the output unchanged |
| `RelationshipResolution.EvidenceConserved` | networkmapper/relationships/resolver.py:136-214 | The evidence of all edges together is the surviving multiset: nothing lost, invented or counted twice |
| `RelationshipResolution.ConflictExact` | networkmapper/relationships/resolver.py:179-214 | An edge is CONFLICTING exactly when its category is SINGLE and its group has another edge; otherwise CONFIRMED holds exactly with two distinct sources |
| `RelationshipResolution.SourceSetSize` | networkmapper/relationships/resolver.py:179-214 | The size of the source set is the number of distinct (provider, method) pairs however often they repeat |
| `RelationshipResolution.GroupNeverRaises` | networkmapper/relationships/models.py:111-131 | No record built for a group is ever rejected by the constructor |
| `RelationshipResolution.Construct` | networkmapper/relationships/models.py:111-131 | The constructor raises exactly when the cardinality, evidence or edge checks fail |
| `RelationshipResolution.ResolveGroup` | networkmapper/relationships/resolver.py:168-214 | The group loop returns one record per related subject, all in conflict or none |
| `RelationshipResolution.ResolveRelationships` | networkmapper/relationships/resolver.py:114-166 | The whole loop, with the default policy, returns the resolution and never raises |
| `Pipeline.SubjectsExact` | networkmapper/identity/resolver.py:57-79 | The canonical identities are exactly the subjects that identity observations name |
| `Pipeline.EndpointsResolved` | networkmapper/relationships/resolver.py:125-144 | Both endpoints of every edge are canonical identities and are different |
| `Pipeline.EdgeHasEvidence` | networkmapper/relationships/resolver.py:125-166 | Every edge rests on some observation of it between two canonical identities |
| `Pipeline.SurvivingClaimGivesEdge` | networkmapper/relationships/resolver.py:125-166 | Every observation between two different canonical identities has its edge |
| `Pipeline.PipelineOrderIndependent` | devtools/replay_observations.py:133-147 | Identities and edges of a run are functions of its observation multiset alone |
| `Pipeline.IdentitiesMonotone` | networkmapper/identity/resolver.py:104-163 | More observations never remove an identity or property and never lower a state (WEAK < PROBABLE < CONFIRMED < CONFLICTING) |
| `Pipeline.EdgesMonotone` | networkmapper/relationships/resolver.py:136-214 | More observations never remove an edge or lower its state (WEAK < CONFIRMED < CONFLICTING), although identities are recomputed from the larger evidence |
| `ConclusionsExact.IdentityStateExact` | networkmapper/identity/resolver.py:104-163 | The state of every identity, from the claims about its subject alone: CONFLICTING exactly when two claims of one property differ in value; else CONFIRMED when two claims of one property differ in provider or method; else PROBABLE when two properties are claimed; else WEAK |
| `ConclusionsExact.PropertyEvidence` | networkmapper/identity/resolver.py:104-137 | Each property of an identity holds exactly the retained claims of that subject and property |
| `ConclusionsExact.IdentityEvidenceOrder` | networkmapper/identity/resolver.py:166-184 | Its evidence stands by provider, then method, value, run and time |
| `ConclusionsExact.IdentityOrder` | networkmapper/identity/resolver.py:73-102 | Identities stand strictly by subject, and their properties strictly by name |
| `ConclusionsExact.RelationshipEvidence` | networkmapper/relationships/resolver.py:125-214 | An edge holds exactly the retained claims of its three names; its ends are different canonical identities |
| `ConclusionsExact.EdgeStateExact` | networkmapper/relationships/resolver.py:179-214 | The state of every edge, from the claims alone: CONFLICTING exactly when its category is SINGLE and another resolvable subject is claimed in it; else CONFIRMED exactly when two of its claims differ in provider or method |
| `ConclusionsExact.DefaultNeverConflicts` | networkmapper/relationships/categories.py:38-57 | Under the module's own policy every edge is MULTIPLE and none ever conflicts |
| `ConclusionsExact.EdgeEvidenceOrder` | networkmapper/relationships/resolver.py:217-231 | Evidence of an edge stands by provider, then method, related subject, run and time |
| `ConclusionsExact.EdgeOrder` | networkmapper/relationships/resolver.py:114-166 | Edges stand strictly by subject, then category, then related subject |
| `Ordering.StringLeExact` | networkmapper/relationships/resolver.py:217-231 | The order of strings used by every sort: a beginning comes first, else the first differing character decides |
| `Ordering.KeyLeAt` | networkmapper/relationships/resolver.py:217-231 | Sort keys compare at the first position where they differ |
| `Timestamps.IsoRoundTrip` | networkmapper/observations/replay_format.py:300-315 | Reading a timestamp's printed form gives the timestamp back, with and without fraction and offset |
| `Timestamps.IsoFormatInjective` | networkmapper/observations/replay_format.py:202-224 | Timestamps that print alike are equal, so sorting by the text loses nothing |
| `Timestamps.ObservedAtExact` | networkmapper/observations/replay_format.py:300-315 | A text is accepted exactly when it is the printed form of a timestamp, and then as that timestamp |
| `IsoExact.IsoLayout` | networkmapper/observations/replay_format.py:186-191 | The printed form of a timestamp, character by character: digits of each field, `-`, `-`, `T`, `:`, `:` at their places, six fraction digits exactly when there are microseconds, and the offset's sign, hours and minutes, with seconds and fraction only when it has them |
| `IsoExact.MonthLengths` | networkmapper/observations/replay_format.py:300-315 | The dates that can be read are those of the Gregorian calendar: month lengths and leap years |
| `Json.ObjectsPrintAlike` | networkmapper/observations/replay_format.py:69-92 | Two objects print the same under sorted keys exactly when they hold the same content |
| `Json.SortKeysIdempotent` | networkmapper/observations/replay_format.py:69-92 | Sorting keys is idempotent at every depth |
| `ReplayFormat.RejectDuplicateKeys` | networkmapper/observations/replay_format.py:338-346 | The pairs hook succeeds exactly without a repeated key, keeps every value, and otherwise names the first repeated key |
| `ReplayFormat.CheckKeys` | networkmapper/observations/replay_format.py:284-290 | The key loops report the first missing key, else the first unexpected one in sorted order |
| `ReplayFormat.KeyProblemExact` | networkmapper/observations/replay_format.py:284-290 | The key check passes exactly when the names are the expected ones, none missing and none more |
| `ReplayFormat.RecordExact` | networkmapper/observations/replay_format.py:227-281 | A duplicate-free record is accepted as an observation exactly when it is the writer's record for it up to key order |
| `ReplayFormat.StrictParsingExact` | networkmapper/observations/replay_format.py:95-144 | A document is accepted as a list exactly when it is the writer's document for that list in the same record order, up to key order; anything else is an error and never a partial list |
| `ReplayFormat.RecordKeyTotal` | networkmapper/observations/replay_format.py:202-224 | The eight-position key is total across both record types that share its slots |
| `ReplayFormat.SortRecords` | networkmapper/observations/replay_format.py:69-92 | Sorting the written records is sorting the observations by the same key |
| `ReplayFormat.RoundTrip` | networkmapper/observations/replay_format.py:69-144 | Parsing what was serialized returns all observations with multiplicity, sorted by the key |
| `ReplayFormat.CanonicalForm` | networkmapper/observations/replay_format.py:69-92 | Two lists serialize to the same document exactly when they are permutations of each other |
| `ReplayFormat.ReserializeAccepted` | networkmapper/observations/replay_format.py:69-144 | Serializing an accepted list reproduces the document, up to key order, exactly when its records were in key order |
| `ReplayFormat.DocumentHasNoDuplicates` | networkmapper/observations/replay_format.py:69-92 | The writer never repeats a key |
| `FormatExact.DocumentLiteral` | networkmapper/observations/replay_format.py:48-92 | A tree is the writer's document for a list, up to key order, exactly when it holds the format's name, version 1 and one record per observation whose names and values are spelled out |
| `FormatExact.RecordLiteral` | networkmapper/observations/replay_format.py:156-194 | A record prints like the writer's exactly when it has these names, each once, with the observation's own fields as values |
| `FormatExact.DocumentRefused` | networkmapper/observations/replay_format.py:95-144 | Every document is either read as the list it was written for or refused for the first reason in the order of the checks; a bad record is the first one, with its position and its own first reason |
| `FormatExact.RecordRefused` | networkmapper/observations/replay_format.py:227-281 | Why a record is refused: no object, no type, unknown type, wrong names, provenance no object or wrongly named, the first value that is no string, or a timestamp that is no printed form |
| `FormatExact.KeysExact` | networkmapper/observations/replay_format.py:284-290 | The first expected name that is missing, or else the smallest unknown one |
| `Grouping.GroupBy` | networkmapper/reporting/canonical_presentation.py:203-219 | A setdefault-append loop yields first-seen keys, each with its elements in order |
| `Grouping.GroupsConserve` | networkmapper/reporting/canonical_presentation.py:187-219 | Grouping keeps every element with its multiplicity |
| `Grouping.RegroupingIsIdentity` | networkmapper/reporting/canonical_presentation.py:203-252 | Grouping a list whose equal keys are adjacent and flattening it gives the list back |
| `Presentation.PresentSucceedsExactly` | networkmapper/reporting/canonical_presentation.py:222-252 | The consistency error is raised exactly when some group mixes cardinalities |
| `Presentation.RegroupedLosslessly` | networkmapper/reporting/canonical_presentation.py:203-252 | Presenting consistent, adjacent groups and flattening gives the edge list back |
| `Presentation.ResolverOutputPresents` | networkmapper/reporting/canonical_presentation.py:203-252 | Resolver output is always presented and flattens to itself, in order |
| `Presentation.ResolvedPropertiesShown` | networkmapper/reporting/canonical_presentation.py:169-201 | For every property of every resolved identity, the values shown hold all its observations once, and there is more than one exactly when its state is CONFLICTING |
| `Presentation.PropertyValuesConserve` | networkmapper/reporting/canonical_presentation.py:187-201 | For any observations, grouping by value conserves them and lists each value once |
| `Presentation.GroupPropertyValues` | networkmapper/reporting/canonical_presentation.py:187-201 | The value-grouping loop computes that grouping |
| `Presentation.PresentRelationships` | networkmapper/reporting/canonical_presentation.py:203-252 | The presentation loop returns the specified groups or the first group's error |
| `CsvExport.DistinctSources` | networkmapper/exporters/relationship_csv_exporter.py:63-82 | The seen-set loop lists each source once, in first-seen order |
| `CsvExport.Export` | networkmapper/exporters/relationship_csv_exporter.py:13-52 | The nested loops write the header and one row per related subject, in presentation order |
| `ExportExact.FileExact` | networkmapper/exporters/relationship_csv_exporter.py:13-52 | The export of resolver output never fails: the seven header cells, then as many rows as edges |
| `ExportExact.RowExact` | networkmapper/exporters/relationship_csv_exporter.py:13-82 | Row i+1 is the i-th edge: its three names, the hostnames found at its two addresses or nothing, `conflicting`, `confirmed` or `weak` by the claims alone, and the sources of its evidence |
| `ExportExact.ProvenanceIsSourceList` | networkmapper/exporters/relationship_csv_exporter.py:63-82 | The provenance cell is `provider/method` for every observation whose source was not seen before it, comma-separated |
| `ExportExact.SourceListSplits` | networkmapper/exporters/relationship_csv_exporter.py:63-82 | When no name holds a comma, splitting that cell at its commas lists each source of the evidence once, where it is first seen |
| `Replay.ProvenanceTokens` | devtools/replay_observations.py:163-176 | The replay side's own dedupe loop gives the text of the exporter's provenance cell |
| `Replay.ReadRelationshipsCsv` | devtools/replay_observations.py:179-203 | Reading checks the header and each row's width and reports the first bad row |
| `Replay.CompareWithCsv` | devtools/replay_observations.py:206-235 | The counting comparison computes missing, extra and differing edges |
| `Replay.DiagnosisComplete` | devtools/replay_observations.py:104-121 | Order-differs holds exactly for a mismatch with nothing missing, extra or differing; the row counts differ by missing less extra |
| `Replay.CsvFileRead` | devtools/replay_observations.py:179-203 | Reading an exported file gives the rows of the flattened presentation |
| `Replay.ExportedRunReplaysAsMatch` | devtools/replay_observations.py:238-266 | Every exported run replays with exit code MATCH: CSV rows through the presentation equal replayed rows, in order |
| `Replay.MatchExact` | devtools/replay_observations.py:238-266 | For two files that are there, MATCH says exactly that the artifact is the writer's document for some observations, up to key order, and that the CSV holds the rows those observations resolve to |
| `Replay.CrossReplay` | devtools/replay_observations.py:206-266 | One run's artifact matches another run's CSV exactly when both resolve to the same rows |
| `ReplayExact.AnswerExact` | devtools/replay_observations.py:238-266 | For every run directory: exit code 2 exactly when the directory or a file is missing, the artifact is no JSON or no writer's document for any observations, or the CSV has another header or a row without seven cells; 0 exactly when some observations have that document and the CSV shows, row by row, what they resolve to; 1 otherwise; a comparison is made exactly when the code is not 2 |
| `ReplayExact.ComparisonMade` | devtools/replay_observations.py:133-235 | The comparison of a replayable run holds the rows its artifact resolves to and the rows of its CSV |
| `ReplayExact.ReadCsvExact` | devtools/replay_observations.py:179-203 | Reading succeeds exactly under the seven header cells with seven cells in every row, takes cells 0, 2, 3, 5 and 6, and otherwise names the header or the line of the first bad row |
| `ReplayExact.ExportedRunExact` | networkmapper/exporters/relationship_csv_exporter.py:13-52 | An exported run holds the serialized observations and a CSV file that shows what they resolve to |
| `ReplayExact.ExportedRow` | networkmapper/exporters/relationship_csv_exporter.py:13-82 | Its rows also show the hostnames found at both addresses |
| `ReplayExact.CompareExact` | devtools/replay_observations.py:206-235 | Missing and extra rows are counted by matching rows of one edge one for one; each differing edge is named on both sides, with all its rows from either side, and these differ |
| `ReplayExact.CompareMissesNothing` | devtools/replay_observations.py:217-225 | Every edge that both sides name, with a row one side holds more often, is among the differing edges |
| `MacIndex.IndexExact` | networkmapper/identity/mac_index.py:42-52 | The index holds a subject under a MAC exactly when some observation claimed it, and has no empty entry |
| `MacIndex.IndexGrows` | networkmapper/identity/mac_index.py:42-52 | More observations only add MACs and subjects |
| `MacIndex.IndexOrderIndependent` | networkmapper/identity/mac_index.py:42-52 | Order and repetition of observations do not matter |
| `MacIndex.BuildMacIndex` | networkmapper/identity/mac_index.py:19-52 | The in-place set-filling loop builds the index |
| `MacIndex.ResolveMacExact` | networkmapper/discovery/bridge_fdb_provider.py:205-218 | A MAC resolves to a subject exactly when that subject, and nobody else, claimed it |
| `EvidenceExact.ArpEdgesExact` | networkmapper/discovery/arp_neighbor_provider.py:167-187 | An ARP edge is reported exactly from a queried host to an address its table lists, discovered or not |
| `EvidenceExact.ArpFactsExact` | networkmapper/discovery/arp_neighbor_provider.py:189-223 | A MAC claim is made exactly for a discovered address that some queried host's table pairs with that MAC |
| `EvidenceExact.LldpEdgesExact` | networkmapper/discovery/lldp_neighbor_provider.py:209-232 | An LLDP edge is reported exactly from a queried host to a subject one of its rows resolves to, under the resolving method |
| `EvidenceExact.LldpFactsExact` | networkmapper/discovery/lldp_neighbor_provider.py:233-251 | LLDP names a neighbour exactly when it is discovered and a row resolving to it advertises that non-empty name |
| `EvidenceExact.RelatedExact` | networkmapper/discovery/lldp_neighbor_provider.py:253-287 | A row resolves to a subject under a method exactly when the subject is one of its management addresses; or it has none and its chassis ID of subtype 5 is that IPv4 address; or it has none and the subject alone claimed its chassis MAC of subtype 4 in the snapshot |
| `EvidenceExact.RelatedInOrder` | networkmapper/discovery/lldp_neighbor_provider.py:253-287 | Management addresses are resolved one for one, in order; any other row resolves to one subject at most |
| `EvidenceExact.SysNameExact` | networkmapper/discovery/snmp_provider.py:185-218 | The name SNMP claims is the value of the first returned sysName field |
| `EvidenceExact.FdbEdgesExact` | networkmapper/discovery/bridge_fdb_provider.py:197-231 | A forwarding edge is reported exactly from a queried host to the one subject that claimed the MAC of one of its learned rows |
| `EvidenceExact.SystemFactsExact` | networkmapper/discovery/snmp_provider.py:185-218 | SNMP names a host exactly by the non-empty sysName it returned itself |
| `EvidenceExact.LldpAndFdbAgree` | networkmapper/discovery/lldp_neighbor_provider.py:281-287 | Over one snapshot, LLDP chassis-MAC resolution and forwarding resolution agree on the subject |
| `Evidence.FdbNoIdentity` | networkmapper/discovery/bridge_fdb_provider.py:197-231 | The forwarding table never yields an identity claim |
| `Evidence.ArpGated` | networkmapper/discovery/arp_neighbor_provider.py:189-223 | Every ARP identity claim is about a discovered address |
| `Evidence.LldpGated` | networkmapper/discovery/lldp_neighbor_provider.py:233-251 | Every LLDP identity claim is about a discovered address |
| `Evidence.SystemGated` | networkmapper/discovery/snmp_provider.py:185-218 | Every SNMP name claim is about a queried device |
| `Providers.NmapGated` | networkmapper/discovery/nmap_provider.py:320-364 | Every Nmap identity claim, of either pass, is about a scanned host |
| `Providers.NmapProvider.EmitIdentityObservation` | networkmapper/discovery/nmap_provider.py:157-187 | One claim is appended when a value was observed, nothing otherwise |
| `Providers.NmapProvider.BuildDevice` | networkmapper/discovery/nmap_provider.py:412-427 | A fresh device with the host's attributes, and its claims appended |
| `Providers.NmapProvider.DiscoverHosts` | networkmapper/discovery/nmap_provider.py:208-248 | One fresh device per scanned host in scan order; the log is the first pass's claims |
| `Providers.NmapProvider.EnrichDevices` | networkmapper/discovery/nmap_provider.py:327-364 | The second pass updates each device in place, SMB before RDP per field, and appends both sources' claims |
| `Providers.NmapProvider.Discover` | networkmapper/discovery/nmap_provider.py:129-138 | Devices and log of a whole Nmap run, with or without the second pass |
| `AttributesExact.NmapAttributesExact` | networkmapper/discovery/nmap_provider.py:327-364 | Which attribute each scanned value becomes: name, MAC and vendor from the first scan; system, computer name and domain from SMB unless it reported none or nothing, then from RDP; nothing else, and no script fields for an unlisted host |
| `Providers.MergedExtends` | networkmapper/discovery/snmp_provider.py:169-179 | Fallback-only merging keeps every attribute already set |
| `Providers.MergedTakesFirst` | networkmapper/discovery/snmp_provider.py:169-179 | An attribute that was unset takes the first returned field meant for it |
| `AttributesExact.AttributeTableExact` | networkmapper/discovery/snmp_provider.py:34-41 | The six system-group fields and the attribute each fills; no other field has one |
| `AttributesExact.SystemMergeExact` | networkmapper/discovery/snmp_provider.py:169-179 | By field name: a set attribute stays, an unset one takes the first field of its name, and without one stays unset |
| `Providers.SnmpEnrichmentProvider.Merge` | networkmapper/discovery/snmp_provider.py:169-179 | The merge raises exactly on an unknown field name and, also then, overwrites nothing |
| `Providers.SnmpEnrichmentProvider.Enrich` | networkmapper/discovery/snmp_provider.py:98-152 | The pass raises exactly on a defect or an unknown field; otherwise its log is as specified and, for devices listed once, each has the merged attributes and the named source its host's answer gives; no attribute set before is lost |
| `Providers.VisitedFirstExact` | networkmapper/discovery/snmp_provider.py:98-152 | After the pass each device is what its own host's answer makes of it, and a device not reached yet is unchanged |
| `Providers.SnmpArpNeighborProvider.CollectRelationships` | networkmapper/discovery/arp_neighbor_provider.py:167-187 | One relationship claim per table entry is appended, in order |
| `Providers.SnmpArpNeighborProvider.CollectMacIdentities` | networkmapper/discovery/arp_neighbor_provider.py:189-223 | The gated MAC claims are appended, in order |
| `Providers.SnmpArpNeighborProvider.Enrich` | networkmapper/discovery/arp_neighbor_provider.py:93-146 | The log of an ARP pass over the devices, hosts that fail contributing nothing |
| `Providers.SnmpLldpNeighborProvider.CollectForHost` | networkmapper/discovery/lldp_neighbor_provider.py:209-251 | One host's rows append their edges and gated names, in order |
| `Providers.SnmpLldpNeighborProvider.Enrich` | networkmapper/discovery/lldp_neighbor_provider.py:126-187 | The log of an LLDP pass, resolved over the received snapshot only |
| `Providers.SnmpBridgeFdbProvider.CollectForHost` | networkmapper/discovery/bridge_fdb_provider.py:197-231 | One host's rows append an edge where learned and unambiguous |
| `Providers.SnmpBridgeFdbProvider.Enrich` | networkmapper/discovery/bridge_fdb_provider.py:117-174 | The log of a forwarding-table pass, resolved over the received snapshot only |
| `Devices.FirstPerIpExact` | networkmapper/discovery/discovery_engine.py:73-82 | The device set holds only discovered devices, every discovered address, and each address once |
| `Devices.FirstPerIpIsFirst` | networkmapper/discovery/discovery_engine.py:73-82 | What is kept for an address was reported before everything else about it |
| `Devices.NetworkGraph.AddDevice` | networkmapper/core/network_graph.py:15-19 | Adding keeps the first device of an address and the order of addition |
| `Devices.NetworkGraph.GetDevice` | networkmapper/core/network_graph.py:21-23 | Lookup finds the stored device of an address, and only then |
| `Devices.NetworkGraph.AllDevices` | networkmapper/core/network_graph.py:25-27 | All devices, in order of addition |
| `Devices.NetworkGraph.Lookup` | networkmapper/core/network_graph.py:21-23 | The lookup a presentation uses finds exactly the graph's devices, each by its address |
| `Engine.LogAppendOnly` | networkmapper/discovery/discovery_engine.py:84-107 | What the first providers left in the log is a prefix of the final log |
| `Engine.FailureLeavesNoTrace` | networkmapper/discovery/discovery_engine.py:84-107 | A provider that raises, anywhere and however late, is as if never registered: the log and every later snapshot are unchanged |
| `Engine.RunGated` | networkmapper/discovery/discovery_engine.py:69-107 | For every order and choice of providers and failures, every identity observation is about a discovered device |
| `Engine.EndpointSafety` | networkmapper/discovery/discovery_engine.py:69-107 | So every canonical identity and both endpoints of every canonical relationship are discovered devices |
| `Engine.LaterProvidersStrengthen` | networkmapper/discovery/discovery_engine.py:84-107 | Every edge established after some providers is still there, no weaker, after all of them |
| `RunExact.NmapFactsExact` | networkmapper/discovery/nmap_provider.py:320-364 | An Nmap provider retains exactly the non-empty values its two passes reported, each under its script's method |
| `RunExact.RunEdgesExact` | networkmapper/discovery/discovery_engine.py:69-107 | A relationship claim is retained exactly when some provider that did not fail supports it over the snapshot it received |
| `RunExact.FailsExact` | networkmapper/discovery/discovery_engine.py:84-107 | An enrichment provider contributes nothing exactly when the snapshot or the collection failed, a defect struck before its last host was done, or a host answered the system group with a field no attribute is kept for; otherwise everything it reports |
| `RunExact.RunFactsExact` | networkmapper/discovery/discovery_engine.py:69-107 | An identity claim is retained exactly when discovery reported it or some provider that did not fail supports it over the snapshot it received |
| `RunExact.CanonicalSubjectsExact` | networkmapper/identity/resolver.py:57-79 | A run's canonical identities are exactly the subjects its providers know something about |
| `RunExact.CanonicalEdgesExact` | networkmapper/relationships/resolver.py:114-166 | A run concludes an edge exactly when its ends differ, both are known, and some provider that did not fail supports the claim over its snapshot |
| `Engine.DiscoveryEngine.AddDevices` | networkmapper/discovery/discovery_engine.py:77-82 | The setdefault loop keeps the first device per address across providers |
| `Engine.DiscoveryEngine.DiscoverDevices` | networkmapper/discovery/discovery_engine.py:69-82 | Discovery resets the log, extends it provider by provider and returns the device set |
| `Engine.DiscoveryEngine.Enrich` | networkmapper/discovery/discovery_engine.py:102-107 | One guarded turn: the provider sees the log so far, and on any failure nothing is added |
| `Engine.DiscoveryEngine.EnrichDevices` | networkmapper/discovery/discovery_engine.py:84-107 | The enrichment loop's log, each provider given exactly the discovery output plus earlier contributions |
| `Engine.DiscoveryEngine.ClassifyDevices` | networkmapper/discovery/discovery_engine.py:111-146 | Every device is classified after enrichment and put into the graph once, in order, its attributes untouched |
| `Engine.DiscoveryEngine.Discover` | networkmapper/discovery/discovery_engine.py:51-109 | A whole run: the log, the graph's addresses, no discovered attribute lost, every device classified |
| `SnmpRows.ArpRowDecodes` | networkmapper/discovery/snmp_client.py:840-869 | Over every numeric row, which ones the ARP parser accepts and the key it reads; it inverts the INDEX encoding |
| `SnmpRows.ManAddrRowDecodes` | networkmapper/discovery/snmp_client.py:920-953 | The same for management-address rows |
| `SnmpRows.LldpRemRowDecodes` | networkmapper/discovery/snmp_client.py:898-917 | The same for remote-table rows |
| `SnmpRows.FdbRowDecodes` | networkmapper/discovery/snmp_client.py:956-978 | The same for forwarding rows |
| `SnmpRows.ArpKeysTellApart` | networkmapper/discovery/snmp_client.py:840-869 | Two accepted ARP rows share a key exactly when their first seven components agree |
| `SnmpRows.ManAddrKeysTellApart` | networkmapper/discovery/snmp_client.py:920-953 | Two accepted management-address rows agree exactly when their first nine components do |
| `SnmpRows.FdbKeysTellApart` | networkmapper/discovery/snmp_client.py:956-978 | Forwarding rows are told apart by their whole INDEX |
| `SnmpRows.TrailingComponentsCollide` | networkmapper/discovery/snmp_client.py:865-869 | A component after the address is tolerated and makes two different rows share a key |
| `SnmpRows.FormatMacInjective` | networkmapper/discovery/snmp_client.py:872-874 | MAC printing is injective |
| `SnmpRows.ChassisAddressExact` | networkmapper/discovery/snmp_client.py:981-1009 | A formatted network address reads as IPv4 exactly when it was an IPv4 address of four octets |
| `SnmpExact.MacTextExact` | networkmapper/discovery/snmp_client.py:872-874 | The text of a MAC address, character by character: two upper-case hexadecimal digits per byte, colons between |
| `SnmpExact.HexTextExact` | networkmapper/discovery/snmp_client.py:981-1009 | Opaque bytes become two lower-case hexadecimal digits each |
| `SnmpExact.Ipv4Exact` | networkmapper/discovery/lldp_neighbor_provider.py:268-279 | A text reads as an IPv4 address exactly when it is the dotted decimal text of four octets |
| `SnmpExact.ChassisIdAccepted` | networkmapper/discovery/snmp_client.py:981-1009 | Which subtypes and lengths of chassis ID are accepted |
| `SnmpExact.ChassisIdText` | networkmapper/discovery/snmp_client.py:981-1009 | An accepted chassis ID becomes a MAC text for subtype 4, dotted decimal for an IPv4 address of subtype 5, hexadecimal otherwise |
| `SnmpExact.ComponentsExact` | networkmapper/discovery/snmp_client.py:840-869 | The components of a row name are the numbers after its column; a name of another column or with anything but numbers has none |
| `SnmpExact.ParsersExact` | networkmapper/discovery/snmp_client.py:840-978 | Which row names each parser accepts at all, and that what it yields depends on the components alone |
| `SnmpExact.ColumnsExact` | networkmapper/discovery/snmp_client.py:31-261 | The walked columns by their OIDs, and what each makes of an INDEX |
| `SnmpTables.FilledKeys` | networkmapper/discovery/snmp_client.py:789-837 | A column has exactly the keys its usable rows parse to |
| `SnmpTables.LastRowWins` | networkmapper/discovery/snmp_client.py:789-837 | When rows repeat a key, the last one walked decides |
| `SnmpTables.FirstSeenOrder` | networkmapper/discovery/snmp_client.py:789-837 | Keys stand in the order in which the walk first met them |
| `SnmpExact.FdbStatusExact` | networkmapper/discovery/snmp_client.py:274-284 | The status of a forwarding entry is the name of the code in the last status row of its MAC, `learned` for code 3 alone; without such a row it has none |
| `SnmpExact.AdvertisedNameKept` | networkmapper/discovery/snmp_client.py:580-612 | The name in the last name row of a key is the joined entry's name exactly when it is not empty |
| `SnmpExact.AddressesExact` | networkmapper/discovery/snmp_client.py:657-693 | The management addresses of a key are those of its rows |
| `SnmpTables.WalkColumn` | networkmapper/discovery/snmp_client.py:789-837 | The walk loop fills the column, or yields nothing when the walk failed |
| `SnmpTables.ArpJoinExact` | networkmapper/discovery/snmp_client.py:476-502 | One ARP entry per key of a usable row, each key once |
| `SnmpTables.FdbJoinExact` | networkmapper/discovery/snmp_client.py:723-751 | One forwarding entry per MAC of a usable port row, each MAC once |
| `SnmpTables.LldpJoinExact` | networkmapper/discovery/snmp_client.py:580-612 | An LLDP entry for each key with a chassis ID its subtype allows, once, and for no other |
| `SnmpTables.WalkManAddrTable` | networkmapper/discovery/snmp_client.py:657-693 | Management addresses grouped by row key, in walk order; none after a failed walk |
| `SnmpTables.JoinLldp` | networkmapper/discovery/snmp_client.py:580-612 | The join loop produces the entries of the joined keys, in order |
| `SnmpTables.GetArpTable` | networkmapper/discovery/snmp_client.py:463-503 | A failed PhysAddress walk is a silent host; otherwise the joined entries |
| `SnmpTables.GetBridgeFdb` | networkmapper/discovery/snmp_client.py:710-751 | A failed port walk is a silent host; a failed status walk only leaves statuses unresolved |
| `SnmpTables.GetLldpNeighbors` | networkmapper/discovery/snmp_client.py:521-612 | Both chassis columns are needed; name and address walks are best-effort |
| `Benchmark.RunBenchmark` | networkmapper/developer/benchmark_runner.py:120-208 | The one loop computes the report whose accounts agree as below |
| `Benchmark.DiagonalIsCorrect` | networkmapper/developer/benchmark_runner.py:129-194 | The matrix diagonal sums to the number of correct classifications |
| `Benchmark.OffDiagonalAndMissingAreIncorrect` | networkmapper/developer/benchmark_runner.py:129-194 | Off-diagonal cells plus the MISSING bucket sum to the incorrect count, which is the number of mismatches |
| `Benchmark.SummaryIsRowSums` | networkmapper/developer/benchmark_runner.py:129-194 | Per-type totals are the matrix row sums and split into diagonal entry and rest; types and rows coincide |
| `Benchmark.MisclassifiedIsOffDiagonal` | networkmapper/developer/benchmark_runner.py:129-194 | Without MISSING, the misclassification summary is the non-zero off-diagonal part of the matrix |
| `Benchmark.MismatchesExact` | networkmapper/developer/benchmark_runner.py:154-166 | The mismatch list names exactly the wrong classifications, in order |
| `BenchmarkExact.CountsExact` | networkmapper/developer/benchmark_runner.py:120-172 | Correct classifications are the devices whose address has an expected type equal to the one predicted; all others are incorrect |
| `BenchmarkExact.MatrixCells` | networkmapper/developer/benchmark_runner.py:129-194 | Each matrix cell is the number of devices expected to be its row and predicted to be its column; rows and columns are the types that occur |
| `BenchmarkExact.MisclassifiedCells` | networkmapper/developer/benchmark_runner.py:154-158 | Each misclassification count is the number of devices expected to be one type and predicted another, or in the MISSING row predicted a type with none expected |
| `BenchmarkExact.SummaryCells` | networkmapper/developer/benchmark_runner.py:133-152 | Per type, how many devices were expected to be it and how many of them were predicted so |
| `BenchmarkExact.MismatchList` | networkmapper/developer/benchmark_runner.py:148-166 | The mismatches are exactly the devices not given the type expected of them, in order, each with its address, name, expected type if any, and prediction |
| `Benchmark.BucketNamesDiffer` | networkmapper/developer/benchmark_runner.py:154-158 | No device type shares its name with another or with the MISSING bucket |
| `ReportComparison.SplitInverts` | devtools/compare.py:235-261 | Splitting a flattened key gives the two names back exactly when the first name is separable |
| `ReportComparison.HalfSeparatorFails` | devtools/compare.py:146-158 | A name without a separator can still fail: one ending in the separator's first three characters collides |
| `ReportComparison.SharedKeyLosesACell` | devtools/compare.py:146-158 | Two such cells share a flat key: the matrix holds 3 off its diagonal, the flattened form 2 |
| `BenchmarkComparison.BenchmarkNamesSeparable` | networkmapper/developer/benchmark_runner.py:129-158 | Every name the benchmark writes is separable |
| `BenchmarkComparison.PrintedBalances` | networkmapper/developer/benchmark_runner.py:184-194 | Every matrix the benchmark prints balances, so the comparison's guarantees hold for it without condition |
| `BenchmarkComparison.ReportHasOrder` | networkmapper/developer/benchmark_runner.py:184-194 | Every report can be printed: its rows all have the same columns |
| `BenchmarkComparison.ComparedTotalIsIncorrect` | devtools/compare.py:161-173 | The comparison's off-diagonal total of a printed benchmark report, plus its MISSING bucket, is the benchmark's incorrect count |
| `ReportComparison.WellFormedDistinct` | devtools/compare.py:146-158 | A parsed matrix lists no cell twice |
| `ReportComparison.FlatPicked` | devtools/compare.py:146-173 | For every matrix, the off-diagonal flattened cells add up to the cells that survive flattening off the diagonal |
| `ReportComparison.OffDiagonalDelta` | devtools/compare.py:235-265 | Where both reports balance, the off-diagonal delta is the signed sum of the off-diagonal cell deltas |
| `ReportComparison.AddsUpExactly` | devtools/compare.py:235-265 | The names under which the delta adds up, whatever the counts, are exactly those under which both reports balance |
| `ReportComparison.SeparableBalances` | devtools/compare.py:146-158 | Distinct cells with separable expected names balance |
| `ReportComparison.ParsedBalances` | devtools/compare.py:146-158 | A parsed matrix whose row names are separable balances |
| `ReportComparison.NoRegressionNoIncrease` | devtools/compare.py:235-265 | The off-diagonal total does not grow when no off-diagonal cell regressed, whatever the diagonal did |
| `ReportComparison.NothingRegressed` | devtools/compare.py:235-265 | Read off the counters: when all regressed cells lie on the diagonal, the off-diagonal total did not grow |
| `ReportComparison.CellChange` | devtools/compare.py:235-261 | From the two matrices: a cell improves exactly when its count grows on the diagonal or shrinks off it, regresses the other way round, and is unchanged exactly when its count is |
| `ReportComparison.CountCells` | devtools/compare.py:233-261 | Improved, regressed and unchanged count exactly those cells; improved plus regressed is changed; changed plus unchanged is the size of the cell union |
| `ReportComparison.FlattenConfusionMatrix` | devtools/compare.py:146-158 | The nested loops flatten the object rows and skip the others |
| `ReportComparison.OffDiagonal` | devtools/compare.py:161-173 | The nested loops total the off-diagonal cells |
| `ReportComparison.CompareReports` | devtools/compare.py:176-273 | Counts, totals and delta of two reports; where both balance, the delta is the signed sum of the off-diagonal cell deltas, and not positive when only diagonal cells regressed |
| `ObservationIds.FilenameRoundTrip` | networkmapper/knowledge/repository.py:34-41 | A file name gives its identifier back exactly while the identifier is at most 999,999 |
| `ObservationIds.PathForExact` | networkmapper/knowledge/repository.py:34-41 | The file name of an identifier: six digits up to 999,999 and all its digits above |
| `ObservationIds.ReadNameExact` | networkmapper/knowledge/repository.py:75-85 | A name is read as an identifier exactly when it is that identifier's six-digit file name, which one line feed may follow |
| `ObservationIds.NextIsFresh` | networkmapper/knowledge/repository.py:43-52 | The next identifier names no existing file while it is at most 999,999 |
| `ObservationIds.NeverReusedExactly` | networkmapper/knowledge/repository.py:43-52 | Saving under the next identifier moves on to a new one exactly while no file is numbered 999,999; after that it is handed out again |
| `ObservationIds.RoomLeftExactly` | networkmapper/knowledge/repository.py:43-52 | The next identifier fits six digits exactly while no file is numbered 999,999 |
| `ObservationIds.ReuseHappens` | networkmapper/knowledge/repository.py:43-62 | From the directory holding file 999,999, two captures in a row are both given 1,000,000 |
| `ObservationIds.CaptureRunIds` | networkmapper/knowledge/repository.py:43-62 | Over a whole run of captures identifiers are consecutive up to 1,000,000 and then stay there |
| `ObservationIds.CaptureRunDistinct` | networkmapper/knowledge/repository.py:43-62 | A run of captures repeats no identifier exactly when the directory it starts from has room for it up to 1,000,000 |
| `ObservationIds.PathForInjective` | networkmapper/knowledge/repository.py:34-41 | Different identifiers have different file names, also past six digits |
| `ObservationIds.ObservationRepository.ExistingIds` | networkmapper/knowledge/repository.py:75-85 | The identifiers read are exactly those of matching file names |
| `ObservationIds.ObservationRepository.NextObservationId` | networkmapper/knowledge/repository.py:43-52 | One more than the highest identifier present, 1 when none is |
| `ObservationIds.ObservationRepository.Save` | networkmapper/knowledge/repository.py:54-62 | The identifier's file is written or overwritten, and every other identifier keeps its text |
| `ObservationIds.ObservationRepository.Load` | networkmapper/knowledge/repository.py:64-69 | Loading gives the text saved under the identifier, and nothing when there is none |

## Left out

- JSON text, CSV quoting and newline handling, UTF-8 and file access: the model works on JSON trees, row tuples and
  directories of named entries; lone surrogates, which make the writer fail, are not modelled.
- Python's `datetime` beyond civil fields and a UTC offset: zone names and `fold` do not show in the printed form; aware
  datetimes that denote one instant with different offsets are different timestamps here.
- Values of the wrong type inside an observation being written (the writer's type errors) cannot be expressed.
- Lenient `int()` spellings (signs, underscores, padding) and non-ASCII digits in OIDs, counts and file names.
- Negative observation identifiers, and the repository's serializer.
- Benchmark.RunBenchmark: does not model loading the inventory, accuracy percentages or the sorted order of the
  report's keys; classifier results are inputs.
- ReportComparison.CompareReports: does not model the per-type accuracy rows, the misclassification rows or
  report formatting; the key loop runs in an arbitrary order, which its contract shows does not matter.
- Engine.DiscoveryEngine.Discover: does not model a discovery provider that raises, which aborts the run before
  anything is returned; events, telemetry and run diagnostics are left out.
- Engine.DiscoveryEngine.ClassifyDevices: the classification rules are an arbitrary function of a device's address
  and attributes.
- Providers.NmapProvider.Discover: scan arguments, service evidence and script-output extraction are left out; the
  extracted values are inputs. One provider object keeps one stamp.
- Providers.NmapProvider.EnrichDevices: does not model service extraction and per-host diagnostics.
- Providers.SnmpEnrichmentProvider.Enrich: does not model responded and timed-out counters, diagnostics and events; for a
  device object listed twice only the absence of overwriting is stated.
- Providers.SnmpArpNeighborProvider.Enrich: does not model host counters, diagnostics and events.
- Providers.SnmpLldpNeighborProvider.Enrich: does not model host counters, diagnostics and events.
- Providers.SnmpBridgeFdbProvider.Enrich: does not model host counters, diagnostics and events.
- SnmpTables.GetArpTable: does not carry the interface index and entry type into the entry, since no provider reads them.
- SnmpTables.GetBridgeFdb: does not carry the port into the entry, since no provider reads it.
- SnmpTables.JoinLldp: does not carry the port, description and capability columns, since no provider reads them.
- SnmpTables.GetLldpNeighbors: takes column values already typed; stripping of text, coercion of unusable integers and
  the safety net that turns a client exception into an unresponsive host are left out.
- Category labels, Markdown and console reports, hostnames beyond their CSV cell, and the project serializers.
- Symmetric-link merging and cross-subject identity correlation, which the program does not do.
