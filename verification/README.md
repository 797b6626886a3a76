# Verified model of jtimon's telemetry core

jtimon collects streaming telemetry from routers. It subscribes to each device, turns the nested messages it
receives into tagged points, merges and batches the points for InfluxDB, keeps a cache of series for Prometheus,
and supervises one reconnecting worker for each device. This project models the parts of it that carry state over
whole runs, in Dafny, and proves what they promise. `dafny verify dfyconfig.toml` checks everything.

The modules follow the program:

- `CiscoWalk`, `CiscoLeaves`, `Accumulator`, `CiscoPipeline`: from a Cisco field tree to written points. The walk is
  modelled with the shared arrays and the in-place stripping of the Go slices and refines a pure walk, which in turn
  is described leaf by leaf; the accumulator's merging loop is the greedy split and no split is shorter; together, a
  leaf's value sits in exactly one written point.
- `JunosRows`, `Batching`, `JunosPipeline`: from a Junos packet to rows, from packets to batches, one stream for each
  measurement or one for all, and so from a key-value pair to its place in a batch.
- `PathText`, `XpathText`, `GnmiPaths`, `GnmiNotification`, `GnmiContents`, `GnmiSync`: paths as text and as structure,
  the two parsers and the printer, prefixes and contents of notifications, and the gate of the initial sync. The two
  regular expressions are modelled by scanners that do what Go's leftmost-first matching does on every text.
- `DialoutSlots`, `DialoutHandoff`: the RPC slot table of a dial-out device, and the hand-over of configurations from
  the Kafka consumer to the device's session as a state machine over single steps.
- `WorkerRegistry`, `Supervision`, `Reconnect`: reconciliation of the workers with a file list, supervision as a state
  machine with rendezvous signals, and the connection loop with its fallback.
- `PromKey`, `PromCache`: the key of a Prometheus series, and the expiring cache against its update log.

`Text` and `Points` hold string functions and the client library's points.

## What the code does against expectation

Each of these is proved, with the exact condition:

- The accumulator writes nothing when everything a tick drained merges into one point (`Accumulator.TickLosesIff`).
- Of several key fields at one level of a Cisco message only the last one before a leaf becomes a tag of it, the
  schema node of a field is carried over to later fields the schema does not know, and an unnamed container drops the
  path so far (`CiscoLeaves.WalkByPosition`).
- Releasing a dial-out RPC clears the slot above its own (`DialoutSlots.ReleaseUndoesIff`); the record in slot 0
  therefore stays, and the hand-over of configurations relies on that.
- Publishing a configuration is two steps; a session that reads the store between them can go back to an older configuration
  and stay there (`DialoutHandoff.TwoStepsGoBack`, `DialoutHandoff.GoesBackIff`). With publishing taken as one step
  this cannot happen (`DialoutHandoff.AtomicHandoff`), but a session can still use a configuration that is in the
  channel and will end it again (`DialoutHandoff.AtomicEntryIff`, `DialoutHandoff.AtomicCanBeAhead`).
- A file given twice at the start leaves an unregistered worker behind (`Supervision.RegisteredIffDistinct`); the run
  timer can bring the wait group below zero (`Supervision.CounterCountsWorkers`, `Supervision.CounterCanGoNegative`); a
  signal to be sent to a worker that has failed or was interrupted, or that is handing a SIGHUP over to a connection
  loop which will not take it, blocks the supervisor for ever, and nothing else does (`Supervision.BlockedIff`). Such
  loops hang in a mixed subscription without paths, wait at their status send, or go round on an unknown vendor
  (`Supervision.FailureCanBlock`, `Supervision.HangCanBlock`, `Supervision.EndCanBlock`).
- After an Interrupt the connection loop's status token is never taken (`Supervision.OfferNeverTaken`).
- The mixed gNMI and pre-gNMI mode is decided once, from the first configuration. So a path marked pre-gNMI later can
  be subscribed without a login check (`Reconnect.MarkedIsChecked`, `Reconnect.MarkedUnchecked`), so can plain paths
  with the mixed vendor configured by name (`Reconnect.JunosIsChecked`, `Reconnect.JunosUnchecked`), and a path marked
  gNMI without a gNMI section stops the program (`Reconnect.CrashesIff`, `Reconnect.MarkedCrashes`).
- The conversion of xpaths loses the keys of a bracket that holds a line break, because the dot of its regular
  expression does not match one; it panics on "and" inside a key or value; and a slash inside one, as in interface
  names, tears the element (`XpathText.XpathRoundTripIff`, `XpathText.PanicsIff`, `XpathText.LineBreakIsLost`,
  `XpathText.AndIsFatal`, `XpathText.SlashIsLost`).
- Leaves of raw bytes are dropped unless the client library can read them back as a number, a text or a truth value
  (`CiscoPipeline.LeafUsable`, `CiscoPipeline.BareBytesAreDropped`).
- Which of two tags with one Prometheus name gives a label its value is left to chance
  (`PromKey.LabelsDeterminedIff`, `PromKey.DashAndUnderscore`).
- The InfluxDB client library drops tags with an empty value. A metric with such a tag can start a point but cannot be
  merged into one (`Accumulator.ExtendIff`).

## Model

| member | source | states |
|---|---|---|
| CiscoWalk.StripNSIdempotent | subscribe_cisco_iosxr.go:584-592 | Stripping the namespace of an element that was stripped already changes nothing. |
| CiscoWalk.StripIdempotent | subscribe_cisco_iosxr.go:584-592 | The same for a whole path. |
| CiscoWalk.StripNSQualified | subscribe_cisco_iosxr.go:584-592 | Of an element with exactly one colon the part behind the colon is kept. |
| CiscoWalk.StripNSPlain | subscribe_cisco_iosxr.go:584-592 | An element without a colon is kept. |
| CiscoWalk.StripNSMore | subscribe_cisco_iosxr.go:584-592 | An element with two colons or more is kept. |
| CiscoWalk.ParentPathText | subscribe_cisco_iosxr.go:584-594 | The text of a path is its stripped names, each between slashes. |
| CiscoWalk.QualifiedPathText | subscribe_cisco_iosxr.go:584-594 | Under one qualified name the text is "/", the name and "/"; with namespaces kept, the whole element. |
| CiscoWalk.GetParentPath | subscribe_cisco_iosxr.go:584-594 | The slice's elements are stripped in place and the result is the joined text of the stripped path. |
| CiscoWalk.Append | subscribe_cisco_iosxr.go:528 | Go's append, with any growth policy: the old slice's elements stay, the result has the new one behind them, and the array is shared exactly if there was room. |
| CiscoWalk.CollectTags | subscribe_cisco_iosxr.go:558-563 | The tag map of a metric; a later tag with the same name wins. |
| CiscoWalk.TagMapLast | subscribe_cisco_iosxr.go:561-563 | A metric has exactly the listed keys as tags, each with the value of its last listing. |
| CiscoWalk.NumberText | subscribe_cisco_iosxr.go:356-377 | The text of a number in a tag spells that number, with a minus sign for a negative one. |
| CiscoWalk.LargeNumber | subscribe_cisco_iosxr.go:379-403 | A 64-bit unsigned number is written as a float of the same value unless unsigned integers are enabled; other integers keep their kind. |
| CiscoWalk.AddKey | subscribe_cisco_iosxr.go:523-529 | A key becomes a tag behind the level's tags, not behind earlier keys of the level; the level's own tags are untouched. |
| CiscoWalk.MatchField | subscribe_cisco_iosxr.go:520-533 | The loop over the schema: tags and schema node after it, for every schema and whatever an earlier sibling left behind. |
| CiscoWalk.AppendName | subscribe_cisco_iosxr.go:569-578 | A child's path is the parent's path and the name, or empty for an unnamed container; the parent's path is untouched. |
| CiscoWalk.EmitLeaf | subscribe_cisco_iosxr.go:536-566 | A leaf gives one metric, with the tags in force and the stripped path; none without a database client. |
| CiscoWalk.WalkField | subscribe_cisco_iosxr.go:535-580 | A leaf or a container adds exactly the metrics of the pure walk. |
| CiscoWalk.WalkStep | subscribe_cisco_iosxr.go:518-581 | One round of the loop, with the arrays of path, tags and current tags possibly shared. |
| CiscoWalk.Walk | subscribe_cisco_iosxr.go:514-582 | For every field tree, schema, slice capacity and growth policy the emitted metrics are those of the pure walk that copies tags and path at each level; the caller's tags are as they were and its path is at most stripped. |
| CiscoWalk.PathUpToStripping | subscribe_cisco_iosxr.go:514-594 | Walking from a path stripped beforehand gives the same metrics as walking from the unstripped one. |
| CiscoWalk.FindContent | subscribe_cisco_iosxr.go:344-354 | The field named "content", or the last field if there is none. |
| CiscoWalk.ProcessTopLevelMsg | subscribe_cisco_iosxr.go:482-503 | One row of a top-level message queues the metrics of its content under the device, sensor and vendor tags. |
| CiscoLeaves.PositionsSound | subscribe_cisco_iosxr.go:518-581 | Every listed position is one of a leaf. |
| CiscoLeaves.PositionsComplete | subscribe_cisco_iosxr.go:518-581 | Every leaf's position is listed. |
| CiscoLeaves.PositionsOrdered | subscribe_cisco_iosxr.go:518-581 | The list is in pre-order and names no leaf twice. |
| CiscoLeaves.WalkByPosition | subscribe_cisco_iosxr.go:514-582 | The walk emits one metric for each leaf, in pre-order, and each is a function of the leaf's position alone: the tags are the level's tags and its last key so far, at every level above. |
| CiscoLeaves.TagsAtIs | subscribe_cisco_iosxr.go:520-533 | The tag that a level adds is its last key so far, named by the stripped path between slashes, an at sign and the key, with the key field's text. |
| CiscoLeaves.TagsAtNone | subscribe_cisco_iosxr.go:520-533 | A level without a key so far adds no tag. |
| CiscoLeaves.NodeAtIs | subscribe_cisco_iosxr.go:520-533 | The schema node below a field is that of the last field so far that the schema lists, and of several nodes with its name the last. |
| Accumulator.SharesField | influx.go:126-132 | Whether a metric has a field that the open point already has. |
| Accumulator.ExtendIff | influx.go:118-134 | The code's test on the open point holds exactly if the metric may join the point's run. |
| Accumulator.UsableIff | influx.go:134-150 | For a metric that fits, merging succeeds exactly if starting a point with it would. |
| Accumulator.MergeOk | influx.go:142-151 | Merging an acceptable metric gives the point of the longer run. |
| Accumulator.Take | influx.go:88-171 | One drained metric is skipped, merged into the open point, or closes it and starts the next; a metric whose fields cannot be read back is skipped. |
| Accumulator.Close | influx.go:174-181 | The end of a tick: what is written of the points of all runs. |
| Accumulator.PointAccumulator.Drain | influx.go:85-172 | The loop's points are those of the greedy split of the acceptable metrics; later arrivals stay queued. |
| Accumulator.PointAccumulator.Tick | influx.go:81-218 | One tick: the queue loses exactly the drained metrics, and the batch written is the one of the greedy runs. |
| Accumulator.GreedySplits | influx.go:87-172 | The runs are nonempty, contiguous and cover the metrics in order; each has equal tags and pairwise disjoint fields. |
| Accumulator.FirstRun | influx.go:117-170 | A run ends only where the next metric does not fit. |
| Accumulator.GreedyOptimal | influx.go:87-172 | No contiguous split into mergeable runs has fewer points. |
| Accumulator.RunFieldNames | influx.go:110-151 | A point has the fields of its metrics and the device timestamp of its first metric, and no others. |
| Accumulator.RunFieldValues | influx.go:142-151 | Every field of every metric of a run is in its point with its own value. |
| Accumulator.TickWritesAll | influx.go:174-216 | With strictly increasing clock readings a tick that forms two points or more writes all of them. |
| Accumulator.TickLosesIff | influx.go:174-181 | A tick with acceptable metrics writes nothing exactly if all of them merge into one point. |
| Accumulator.PointStamp | influx.go:117-170 | A point has the clock reading of its run's last metric, and the tags of its first metric that are not empty. |
| Accumulator.TickDropsEqual | influx.go:174-181 | A tick of two points or more writes all of them, but for the last one exactly if it equals the one before it. |
| Accumulator.OneMetricIsLost | influx.go:174-181 | A single acceptable metric in a tick is never written. |
| Accumulator.Located | influx.go:87-172 | Every metric lies in exactly one run, at its own place. |
| CiscoPipeline.LeafField | subscribe_cisco_iosxr.go:538-564 | A leaf's metric has one field, its path, with the leaf's value, whatever the schema. |
| CiscoPipeline.LeafPathNamed | subscribe_cisco_iosxr.go:568-594 | The field of a leaf below named containers is all names from the root, stripped, each between slashes, and the leaf's own name. |
| CiscoPipeline.LeafPathUnnamed | subscribe_cisco_iosxr.go:568-594 | Below an unnamed container only the names after the last such container count. |
| CiscoPipeline.QualifiedLeaf | subscribe_cisco_iosxr.go:584-594 | With namespaces removed, a leaf right under "ns:name" is the field "/name/leaf". |
| CiscoPipeline.PointName | influx.go:103-108 | A point is named after the configured measurement, or else after its sensor tag. |
| CiscoPipeline.TopLevelName | subscribe_cisco_iosxr.go:482-503 | Every leaf of a top-level message keeps the device, sensor and vendor tags whatever its keys, so that its point is named after the configured measurement or else after the schema's node. |
| CiscoPipeline.LeafUsable | influx.go:90-116 | A leaf's metric is accepted exactly if its value is finite and can be read back and its series keys fit. |
| CiscoPipeline.BareBytesAreDropped | influx.go:94-100 | Raw bytes that begin like no number or text and spell no truth value, such as "abc", are never accepted. |
| CiscoPipeline.LeafRank | subscribe_cisco_iosxr.go:514-582 | A leaf's place among the queued metrics is its rank in pre-order. |
| CiscoPipeline.MetricIsWritten | influx.go:87-216 | In a tick of two points or more, an acceptable metric sits in exactly one written point, with its tags, name and every field value. |
| CiscoPipeline.LeafIsWritten | subscribe_cisco_iosxr.go:535-580 | End to end: once a tick of two points or more drains the metric of a leaf that is accepted, the leaf's path and value sit in exactly one written point with the leaf's tags, whatever was queued before and after. |
| Batching.BatchingUnique | influx.go:267-302 | Full batches with a nonempty last one are determined by the points and the size. |
| Batching.AddPacket | influx.go:268-286 | A packet's points go through the open batch in order; full ones are written, and no other measurement is touched. |
| Batching.LimitIsSize | influx.go:272-286 | A batch is full at the configured size; a size of zero acts like one. |
| Batching.WriteMeasurement | influx.go:253-302 | The batches of a measurement concatenate to its points in arrival order, all but the last are exactly full, none is empty. |
| Batching.WriteGroups | influx.go:253-303 | The same for all measurements, in any order of the map. |
| Batching.MeasurementWriter.Tick | influx.go:239-303 | One tick drains what was queued at its start and leaves later packets queued in order; its writes are the batches of each measurement. |
| Batching.PlainWriter.Tick | influx.go:322-349 | One tick writes all drained points in one batch, in order. |
| Batching.SamePoints | influx.go:239-349 | For each measurement both writers write the same points in the same order. |
| JunosRows.ResolveKey | influx.go:456-472 | Path and tag map of a key; a plain relative key gets the map of its prefix itself, nil before any prefix. |
| JunosRows.SetCommonTags | influx.go:474-477 | Writing the common tags into a map that rows already share leaves those rows as they were. |
| JunosRows.LeafListText | influx.go:505-516 | The string elements of a leaf-list, separated by commas. |
| JunosRows.HandleKey | influx.go:456-558 | One pair changes the rows as if its tags were a fresh copy, although maps are shared. |
| JunosRows.CollectRows | influx.go:444-560 | For every packet the rows built with shared tag maps are those built with a fresh copy for each key. |
| JunosRows.DroppedIff | influx.go:447-478 | A pair is dropped exactly if it is internal, has no value, or is a plain relative key before any prefix. |
| JunosRows.KeptPair | influx.go:447-477 | A kept pair's path is that of the parsed key if it is absolute, that of the last prefix and the key parsed together if it has keys, and else the alias of the last prefix's path followed by the key; its tags are those of the same parse with the packet's four values set. |
| JunosRows.KeptValue | influx.go:480-516 | A kept pair's value is its text or other value, or the strings of its leaf-list joined by commas. |
| JunosRows.MeasurementIs | influx.go:397-420 | The measurement is the configured one, or else the third of the sensor path's four parts. |
| JunosRows.RowsAreRuns | influx.go:527-559 | The rows are the maximal runs of neighbouring pairs with equal tags: nothing is lost or reordered, adjacent rows differ in tags, and each row has the last value of every path of its run. |
| JunosRows.PointsAreNamed | influx.go:561-592 | All points of a packet are named after its measurement. |
| JunosRows.AddIDB | influx.go:430-592 | What a packet hands to the batch writers: the acceptable points of its rows, or nothing. |
| JunosPipeline.BatchAt | influx.go:267-302 | The q-th point of a measurement is in batch q / size, at place q % size. |
| JunosPipeline.RowIsWritten | influx.go:239-303 | The point of an accepted row of a drained packet is at one place of one batch of its measurement, given by its rank. |
| JunosPipeline.RanksDiffer | influx.go:239-303 | Different accepted rows of the drained packets have different places, in arrival order. |
| JunosPipeline.ValueIsWritten | influx.go:430-592 | End to end: once a tick drains a packet, the last value of each path of each accepted row is at exactly one place of one batch of its measurement, in a point with the tags of the row's pairs. |
| JunosPipeline.PairHasRow | influx.go:444-560 | Every kept pair has a row with the tags of its text and of the packet, and in it its value unless a later pair of the row has the same path. |
| JunosPipeline.PairIsWritten | influx.go:444-592 | From a key-value pair to a batch: the path, the tags and the value of a kept pair as its key, the last prefix before it and its value determine them, in a point at a known place of a batch. |
| GnmiPaths.TagKeyInjective | gnmi_utils.go:318-320 | Different keys of an element have different tag names. |
| GnmiPaths.AddKeys | gnmi_utils.go:317-320 | The keys of an element become tags under its path, in any order of the map. |
| GnmiPaths.GnmiParsePath | gnmi_utils.go:309-332 | Path, tags and reserved names of a list of elements under a prefix. |
| GnmiPaths.PathAppend | gnmi_utils.go:309-332 | Parsing composes over concatenation: the tail is parsed under the path of the head. |
| GnmiPaths.TagsDisjoint | gnmi_utils.go:316-320 | The tags of a head and of the elements below it never meet, if no name begins with "@". |
| GnmiNotification.ParsePrefix | gnmi_utils.go:213-223 | The prefix is parsed once, with its origin if asked for; a known prefix path is kept. |
| GnmiNotification.ApplyUpdate | gnmi_utils.go:225-254 | One update: a plain value, a Juniper header or publish timestamp, a skipped update without path, or an error. |
| GnmiNotification.GnmiParseUpdates | gnmi_utils.go:200-261 | All updates in order, stopping at the first value that cannot be converted. |
| GnmiNotification.GnmiParseDeletes | gnmi_utils.go:269-299 | All deletes in order, each storing nil under its path and adding its tags. |
| GnmiNotification.GnmiParseNotification | subscribe_gnmi.go:248-303 | Updates, then deletes, then target and origin; the count of distinct paths is taken before fields are added. |
| GnmiNotification.HeadMovesToPrefix | gnmi_utils.go:200-332 | Moving a common head of elements from every update and delete into the prefix changes neither tags nor xpaths nor Juniper fields (section 2.4.1 of the gNMI Specification). |
| GnmiContents.RefusedIff | gnmi_utils.go:225-258 | A notification is refused exactly if the value of an update without a reserved name cannot be converted. |
| GnmiContents.ApplyByKind | gnmi_utils.go:228-258 | What one update writes: its tags, and its value among the xpaths or, if it names the header or the timestamp, among the Juniper fields. |
| GnmiContents.NotificationXpaths | gnmi_utils.go:225-299 | The xpaths are exactly the paths of the deletes and of the updates without a reserved name; a deleted path has no value, any other that of the last update with it. |
| GnmiContents.NotificationJuniper | gnmi_utils.go:241-253 | Juniper fields exist exactly if an update names the header or the timestamp; each is under its own path, with its own conversion. |
| GnmiContents.JuniperPlaces | gnmi_utils.go:241-253 | Header and timestamp are found at the paths of the last updates that name them. |
| GnmiContents.NotificationTags | gnmi_utils.go:200-332 | A tag is one of a delete, an update or the prefix, and has the value of the last of these. |
| GnmiContents.PrefixIsTagged | subscribe_gnmi.go:286-302 | The prefix path has the origin in front if asked for; target and origin are tags. |
| GnmiContents.OneUpdate | gnmi_utils.go:225-240 | One update of one path gives exactly that path with its value. |
| PathText.GetPath | internal_jtimon.go:104-123 | The printed text is the path with each element's keys in some order, each once. |
| PathText.SpitTagsNPath | influx.go:357-394 | The method computes the split given by the two scanners, for every text and alias table. |
| PathText.OneKeyAliased | influx.go:357-394 | One element with one key under any alias table: white space around name and value and the quotes go, and the stripped path and the tag go by their aliases. |
| PathText.PrintThenParse | influx.go:357-394 | Printed elements, keys in the given order, parse to the stripped path and the tags of the structured path. |
| PathText.TextAgreesWithStructure | internal_jtimon.go:104-123 | Every text that getPath may print for well-formed elements splits to the path and tags that gnmiParsePath gives. |
| XpathText.ParsePairs | gnmi_utils.go:98-114 | The pairs of one bracket; a pair without "=" is the panic of the source. |
| XpathText.ParseKeyValuePairs | gnmi_utils.go:85-118 | Name and keys of a path piece, all brackets together. |
| XpathText.XPathToGnmiPath | gnmi_utils.go:121-165 | The elements of an xpath, an error for a path without any, or the panic. |
| XpathText.ErroneousIff | gnmi_utils.go:123-162 | A text is an error exactly if nothing but slashes comes after its first slash. |
| XpathText.SlashesDoNotMatter | gnmi_utils.go:123-127 | For every text repeated and trailing slashes change nothing. |
| XpathText.AndPanics | gnmi_utils.go:101-114 | A bracket with "and" in a key or value has more pieces than equals signs, so one piece has none and the program panics. |
| XpathText.XpathConversion | gnmi_utils.go:85-165 | Printing elements as an xpath, keys quoted and in any grouping into brackets and "and", and converting, where no key or value holds a slash: the panic if some bracket without a line break has "and" in a key or value, otherwise the elements without the brackets that hold a line break. |
| XpathText.PanicsIff | gnmi_utils.go:101-114 | Without slashes in keys and values the program panics exactly if some bracket without a line break has "and" in a key or value. |
| XpathText.SlashAddsElems | gnmi_utils.go:123-134 | With a slash in a key or value the conversion panics or gives more elements than there were. |
| XpathText.XpathRoundTrip | gnmi_utils.go:85-165 | Without line breaks, slashes and "and" in keys and values all elements and keys come back. |
| XpathText.XpathRoundTripIff | gnmi_utils.go:85-165 | With no key in two groups of an element, the elements come back exactly if no key or value holds a line break, a slash or "and". |
| XpathText.LineBreakIsLost | gnmi_utils.go:93-95 | A text with a line break in a value whose key is lost. |
| XpathText.AndIsFatal | gnmi_utils.go:101-110 | A text with "and" in a value that makes the program panic. |
| XpathText.SlashIsLost | gnmi_utils.go:123-134 | A text with an interface name as value that gives two elements and no key. |
| GnmiSync.Session.FormHeader | gnmi_utils.go:475-541 | The Juniper header from the updates, else from the first Juniper extension; none, a bad one, an empty one, or one whose path stops the program. |
| GnmiSync.Session.Parse | subscribe_gnmi.go:162-240 | The packet of a notification, or none if it cannot be parsed, has a bad header, or is not Juniper's and has no timestamp. |
| GnmiSync.Session.HandleResponse | subscribe_gnmi.go:317-382 | After one more response the session still agrees with its history: gate, counters and published packets. |
| GnmiSync.Session.Run | subscribe_gnmi.go:317-382 | Over every run handled in order, up to a response that stops the program, the published packets and counters are those of the history; a stopping response is counted and nothing more. |
| GnmiSync.OneMore | subscribe_gnmi.go:327-377 | What a response adds depends on earlier ones only through the sync flag; all parsed packets count their paths, gated ones too. |
| GnmiSync.PublishedSplit | subscribe_gnmi.go:353-377 | The published packets are the early Juniper packets, numbered outside the initial sync as `GnmiSync.EarlyGate` tells in numbers, up to the first sync response or to the end if there is none, followed by every parsed packet (section 3.5.1.4 of the gNMI Specification). |
| GnmiSync.EarlyGate | subscribe_gnmi.go:353-377 | With EOS off and no sync response before it, a response is published exactly if it parses, has a Juniper header, and neither of the header's sequence numbers lies from 2^21 to 2^22 - 1. |
| GnmiSync.ExtensionGate | subscribe_gnmi.go:353-377 | The same for a notification whose one header is an extension, by its number alone. |
| GnmiSync.GateEdges | gnmi_utils.go:38-39 | The four numbers at the edges of the range: 2^21 - 1 and 2^22 pass, 2^21 and 2^22 - 1 do not. |
| GnmiSync.FirstExtension | gnmi_utils.go:489-505 | Of several Juniper extensions the first counts. |
| GnmiSync.PacketFromExtension | gnmi_utils.go:475-541 | A notification without reserved fields has the header of its first Juniper extension and its measurement's name from there; without one it needs a timestamp, and is named by its prefix path. |
| GnmiSync.PacketFromUpdates | gnmi_utils.go:475-541 | A header message in the updates gives the sequence number and the third part of its path; with fewer parts the program stops. |
| DialoutSlots.ChangeBit | dialout.go:153 | Setting or clearing a bit of the 16-bit map, sign bit included, leaves all others alone. |
| DialoutSlots.GetUnusedRpcId | dialout.go:114-138 | Slot 0 for the subscriber; else the lowest clear bit from 1 to 15, failing exactly if all 15 are set. |
| DialoutSlots.DeviceInfo.Allocate | dialout.go:140-169 | Keeps bitmap and table in agreement, takes the lowest free slot or slot 0, reuses the record in an occupied slot 0, and changes no other slot. |
| DialoutSlots.DeviceInfo.Release | dialout.go:171-176 | Keeps bitmap and table in agreement and clears the slot numbered by the id, one above the record's own. |
| DialoutSlots.SlotZeroStays | dialout.go:171-176 | Over every run of allocations and releases the subscriber's slot stays taken. |
| DialoutSlots.ReleaseUndoesIff | dialout.go:153-176 | A release undoes an allocation exactly if the slot was taken before and the one above was free. |
| DialoutHandoff.Reachable | dialout.go:216-304 | In every reachable state the channel is a suffix of what was sent, the store is at most one behind, and sessions are ordered. |
| DialoutHandoff.Conservation | dialout.go:216-273 | In every run what was sent is what sessions received, at their start or their end, and what is still queued. |
| DialoutHandoff.ChannelBound | dialout.go:110 | The channel never holds more than 512 configurations. |
| DialoutHandoff.NewConfigEnds | dialout.go:268-273 | A configuration that arrives in a running session leaves the channel and ends the session. |
| DialoutHandoff.ScanAgrees | dialout.go:216-231 | Whether a session took its configuration from the channel, and what a read of the store saw, follow from the order of the steps. |
| DialoutHandoff.EntryBeforeSuffix | dialout.go:216-231 | A running session uses the entry just before the channel's suffix exactly if it received it from the channel, or if the Sends between its Begin and its Decide are none, or one whose Store is still to come. |
| DialoutHandoff.EmptyChannelIsNewest | dialout.go:216-231 | With an empty channel a session uses the newest configuration exactly if it received it from the channel or its Decide did not fall between a Send and its Store. |
| DialoutHandoff.NeverGoesBack | dialout.go:216-304 | A later session never uses an older configuration unless it read the store too early, and then it is behind by at most one. |
| DialoutHandoff.GoesBackIff | dialout.go:216-304 | A session goes back behind an earlier one exactly if it read the store before the pending Store and the earlier one had received just that pending configuration. |
| DialoutHandoff.SeparateNeverReadsEarly | dialout.go:382-383 | If no session decides between a Send and its Store, none reads too early. |
| DialoutHandoff.AtomicHandoff | dialout.go:382-383 | With publishing as one step, in every run: sessions never go back, each is as new as what was sent when it began, and an empty channel means the newest. |
| DialoutHandoff.AtomicEntryIff | dialout.go:216-231 | With publishing as one step a session uses the entry just before the channel's suffix exactly if it received it from the channel or nothing was sent between its Begin and its Decide. |
| DialoutHandoff.AtomicCanBeAhead | dialout.go:216-231 | A run with one-step publishing in which a session uses an entry that is still in the channel. |
| DialoutHandoff.TwoStepsGoBack | dialout.go:382-383 | With two steps there is a run in which the next session goes back to an older configuration and stays there. |
| WorkerRegistry.JWorkers.AddWorker | workers.go:123-128 | A worker that loads is new, registered under its file and counted; one that does not changes nothing. |
| WorkerRegistry.JWorkers.StartWorker | workers.go:112-120 | A new worker gets SIGCONT as its first signal. |
| WorkerRegistry.JWorkers.SignalListed | workers.go:150-162 | The loop over the list, duplicates included. |
| WorkerRegistry.JWorkers.RemoveUnlisted | workers.go:164-171 | Exactly the unlisted files go, in any order of the map, each worker with one Interrupt. |
| WorkerRegistry.JWorkers.HandleConfigChanges | workers.go:143-175 | The whole effect of a reconciliation on registry, identities and every worker's signals; nothing for an unreadable list. |
| WorkerRegistry.RegisteredIff | workers.go:149-171 | Registered afterwards is exactly what is listed and was registered or loads where it is listed. |
| WorkerRegistry.OwedKept | workers.go:151-156 | A kept worker gets one SIGHUP for each listing. |
| WorkerRegistry.OwedNew | workers.go:157-161 | A new worker gets SIGCONT at its first successful load and one SIGHUP for each later listing. |
| WorkerRegistry.OwedNone | workers.go:123-128 | A file has no worker exactly if it never loads. |
| WorkerRegistry.RepeatUnchanged | workers.go:143-175 | Repeating a list leaves the registry unchanged exactly if no listed file loads now that was not registered; in particular with the same loads. |
| Supervision.Reachable | workers.go:86-208 | Every run from distinct files keeps registry, counter and status channel in agreement with the workers. |
| Supervision.VisitDoes | workers.go:150-162 | A visited file's registered worker gets its SIGHUP, and a new file that loads gets a worker of its own. |
| Supervision.RemovalsRemove | workers.go:164-205 | A removal takes exactly its file out of the registry and interrupts its worker; a status message takes out exactly the file it names. |
| Supervision.BroadcastDoes | workers.go:186-200 | A SIGHUP without a list and an Interrupt go to every registered worker. |
| Supervision.CounterCountsWorkers | workers.go:123-128 | The wait group counts the workers that have not called Done, less a pending Add; it is negative exactly if all have called Done before that Add. |
| Supervision.LiveAreRegistered | workers.go:143-208 | Every live worker not interrupted is registered under its own file, so no file has two. |
| Supervision.StatusRemovesDead | workers.go:202-205 | A pending status message only ever removes the worker that sent it, which is past its report. |
| Supervision.RegisteredIffDistinct | workers.go:102-128 | Every run keeps live workers registered exactly if no file is given twice at the start. |
| Supervision.CounterCanGoNegative | workers.go:123-141 | From one given file, the run timer can interrupt a worker before it is counted, and the counter goes below zero. |
| Supervision.BlockedForever | workers.go:143-208 | A supervisor that still has to send, now or later in the same reconciliation, to a worker that is past its loop or stuck at its hand-over never waits for a signal or status again. |
| Supervision.BlockedIff | workers.go:143-208 | From every reachable state the supervisor can get back to waiting or out of its loop exactly if it is not blocked in that sense. |
| Supervision.FailureCanBlock | workers.go:192-194 | With two workers, a SIGHUP after the failure of one and before its report is handled blocks the supervisor while the other goes on. |
| Supervision.HangCanBlock | workers.go:323-333 | Without any failure or interrupt: a mixed subscription left without paths hangs, the next SIGHUP leaves its worker at the hand-over, and the one after that blocks the supervisor. |
| Supervision.EndCanBlock | workers.go:323-333 | Worker and connection loop can wait for each other, at the hand-over and at the status send, and the next SIGHUP blocks the supervisor. |
| Supervision.OfferNeverTaken | workers.go:311-316 | A status token offered to a worker that is past its loop or stuck is never taken. |
| Reconnect.GetVendor | multi_vendor.go:18-37 | The vendor by name after the two overrides, or none. |
| Reconnect.VendorChoice | multi_vendor.go:18-37 | The mixed vendor in the mixed mode, else gNMI if it is tried, else the one named, Junos by default, and none for an unknown name. |
| Reconnect.GetGnmiPaths | multi_vendor.go:110-118 | The paths that gNMI subscribes, in order. |
| Reconnect.GetPreGnmiPaths | multi_vendor.go:120-128 | The paths that the Junos subscription gets, in order. |
| Reconnect.PathsAreShared | multi_vendor.go:110-128 | No path is lost between the two, and exactly the paths marked both ways go to both. |
| Reconnect.MixedCalls | multi_vendor.go:79-97 | The mixed subscription calls each kind exactly if it has paths. |
| Reconnect.FindMarks | workers.go:678-683 | Whether some path is marked. |
| Reconnect.FindLoginCheck | workers.go:738-748 | Whether the mixed mode needs a login check. |
| Reconnect.Stream | workers.go:767-813 | A subscription, its close, and what its code and a configuration re-read meanwhile do to configuration and mode. |
| Reconnect.Connect | workers.go:694-765 | A round once the vendor is known, with every early exit. |
| Reconnect.WorkRound | workers.go:685-813 | One round of the loop and the mode after it. |
| Reconnect.Work | workers.go:666-814 | For every sequence of outcomes the log of the loop is the trace in which configuration and mode follow from the log alone. |
| Reconnect.TraceGood | workers.go:685-814 | In every trace each event is allowed after those before it. |
| Reconnect.AtMostOneOpen | workers.go:728-776 | At most one connection is open, and each is closed before a redial and before the worker leaves. |
| Reconnect.StatusIsLast | workers.go:694-812 | A worker that leaves offers one status token, as its last act. |
| Reconnect.AfterSubscribed | workers.go:775-813 | A subscription is followed by its close; after the codes for a SIGHUP without restart and a completed ONCE subscription the status token follows and the log ends, after the other three the round ends there and the loop goes on. |
| Reconnect.StatusReason | workers.go:694-812 | A status token comes right after the close of such a subscription, or from a round that the options, the host or an Interrupt ended before a dial. |
| Reconnect.RoundOutcome | workers.go:694-813 | The events of a round with a known vendor, case by case: early exit, failed dial, failed login, or subscription. |
| Reconnect.UnknownVendor | workers.go:685-692 | A round with an unknown vendor does nothing. |
| Reconnect.GnmiModeIff | workers.go:758-804 | If configurations are re-read only while a subscription streams, gNMI is tried exactly if the configuration in force has it and the last deciding event was not its failure for good. |
| Reconnect.GnmiIsConfigured | workers.go:674-804 | At every subscription gNMI mode implies that gNMI is configured, and no gNMI subscription runs without. |
| Reconnect.LoginIsKnown | workers.go:752-753 | A login check is only ever asked of a vendor that has one. |
| Reconnect.CheckedIff | workers.go:736-772 | A subscription follows a successful login check on its own connection exactly if one is needed. |
| Reconnect.JunosIsChecked | workers.go:736-772 | A subscription that calls the Junos one is always checked, exactly unless the mixed vendor is configured by name and the first configuration had no marked path. |
| Reconnect.JunosUnchecked | workers.go:736-772 | A run in which it is not checked. |
| Reconnect.MarkedIsChecked | workers.go:736-772 | A subscription of paths marked pre-gNMI is checked exactly if the first configuration had a marked path, or the present one names Junos or no vendor and has no gNMI section or has just fallen back from it. |
| Reconnect.MarkedUnchecked | workers.go:736-772 | A run in which a restart brings a marked path that is subscribed unchecked. |
| Reconnect.CrashesIff | subscribe_gnmi.go:493-505 | A subscription stops the program exactly if there is no gNMI section and the vendor's name, or a path's mark in the mixed mode, asks for gNMI. |
| Reconnect.MarkedCrashes | subscribe_gnmi.go:493-505 | A configuration that stops the program. |
| Reconnect.HangsIff | multi_vendor.go:79-107 | The mixed subscription waits for ever exactly if there are no paths. |
| Reconnect.EarlyRereadCrashes | workers.go:707-721 | A configuration re-read between rounds can drop the gNMI section under a mode that still asks for it. |
| PromKey.AscendingUnique | prometheus_exporter.go:110 | A set of labels has one ascending order: sorting is canonical. |
| PromKey.EscapePrefixFree | prometheus_exporter.go:119 | The escapes of quoted characters form a prefix code, whatever counts as printable. |
| PromKey.QuoteListInjective | prometheus_exporter.go:119 | The quoted list determines its strings. |
| PromKey.SortStrings | prometheus_exporter.go:110 | An ascending list of the same labels. |
| PromKey.GetMapKey | prometheus_exporter.go:103-120 | The key of the name and labels, whatever order the iteration over the map takes. |
| PromKey.KeysAgree | prometheus_exporter.go:103-120 | Two keys are equal exactly if name and labels are. |
| PromKey.PromNameAt | prometheus_exporter.go:22-24 | An ASCII letter, digit or underscore of a name is kept; every other character becomes an underscore. |
| PromKey.BuildLabels | prometheus_exporter.go:196-200 | Every tag is a label under its Prometheus name; of tags that share one the last one met decides. |
| PromKey.LabelsDeterminedIff | prometheus_exporter.go:196-200 | The labels are the same for all orders of iteration exactly if tags that share a Prometheus name have one value. |
| PromKey.DashAndUnderscore | prometheus_exporter.go:196-200 | Two tags for which they are not. |
| PromCache.Exporter.Tick | prometheus_exporter.go:67-75 | Exactly the entries more than a minute old go, in any order of the map. |
| PromCache.Exporter.Process | prometheus_exporter.go:58-78 | The cache after any run of events. |
| PromCache.Exporter.Collect | prometheus_exporter.go:81-96 | A scrape emits every entry once, and no two series with the same name and labels. |
| PromCache.AfterKeyed | prometheus_exporter.go:192-203 | Over every run entries stay under the key of their name and labels. |
| PromCache.EntryIsLast | prometheus_exporter.go:58-78 | The entry of a key is the last metric received for it, and there is none exactly if none was received or a later tick found it more than a minute old. |
| PromCache.AtMostTwoMinutes | prometheus_exporter.go:59-75 | With metrics received when stamped and a tick every minute no entry is older than two minutes. |
| PromCache.TwoMinutesAreReached | prometheus_exporter.go:59-75 | Two minutes is the exact bound. |

## Left out

- The gRPC, TLS, Kafka, InfluxDB and HTTP clients: dial, login, subscribe and write outcomes, clock readings and map
  iteration orders are parameters; failed writes are only logged in the program and are not modelled.
- The tunnel variant of the connection loop: it works through a foreign library and has exits without a status token.
- `publishToPrometheus`: it keeps adding to label maps already handed over, so the keys cover `addPrometheus` only;
  of that, the loop over the key-value pairs is left out and its label building is modelled.
- `multiLevelMsgTags` over several rows of one message: it reads a path that an earlier walk may have stripped.
- Conversion of values to floating point, JSON or bytes: values are opaque, apart from being finite and readable.
- Reading raw bytes back: bytes that are empty or begin like a text or a number, or hold a comma, are judged by a
  parameter. A point keeps such a value as bytes: that it is read as another value when points merge, that one read as
  nothing disappears then, that one read as a number that is not finite keeps later metrics out, and that a comma or
  quote in it would run into the next field, are not modelled; nor are field names that do not survive escaping.
- Unpacking the Juniper header messages: a parameter for headers in updates, a part of the input for extensions.
- Packets handled in one goroutine each: responses are handled in order, as with the option that turns these off.
- The accumulator's channel is unbounded here, so blocking producers are not modelled; the dial-out channel has its
  512 places.
- The comparison of the last two points of a tick is by name, tags, fields and time; caches inside the client's
  points, and the change of type that reading integer fields back from a point makes, are not modelled.
- Text is a sequence of Unicode characters: byte sequences that are not valid UTF-8 are not modelled.
- Logging, test-data generation, the simulator, password decoding and command-line options; the fixed tags and
  timestamps that the gNMI handler adds after the gate would only add easy members.
- Supervision: a data race between the run timer's iteration over the registry and the supervisor's changes is
  modelled as interleaved steps; reading a configuration, dialing, logging in and publishing to Kafka take any time
  but end. What a connection loop does is chosen freely here, and by `Reconnect` in detail.
- JunosRows.AddIDB: for nonempty keys and leaf-lists with a string; on others the program stops with an index error.
- DialoutSlots.DeviceInfo.Release: for ids up to 15; the release of id 16 stops the program with an index error.
- DialoutHandoff.AtomicHandoff: for one session at a time for each device; the slot table allows a second one.
- XpathText.XpathConversion: for keys and values without bracket, equals sign, double quote or outer space, and names
  without slash or opening bracket; with slashes, XpathText.SlashAddsElems says what is known.
- PathText.TextAgreesWithStructure: for keys of letters, digits, hyphens and slashes, names without slash, opening bracket
  or outer space, and values without bracket, single quote, line break or " and "; no alias.
