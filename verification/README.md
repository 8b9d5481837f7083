# Verification of the EtherCAT master and its EEPROM tools

A Dafny model of four parts of the repository, with proofs.

**The SII image compiler and its reader** (`esi_to_sii_bin.py`, `parse_eeprom.py`). A description, after XML parsing,
is compiled to an EEPROM image; the reader walks the image. `SiiChecksum` (over `Gf2Polynomials`) gives the CRC loop its
meaning over GF(2); `SiiStrings`, `SiiPdos` and `SiiImage` are the generator, with its two passes over one mutable string
table; `SiiReader` is the reader; `SiiFrame` and `SiiRoundTrip` prove what an image says, and
`SiiWitnesses` has descriptions that images can be built for. `BuildImage` succeeds exactly on
the descriptions for which `Buildable` holds, and the theorems about images hold for all of them.

**The master's lifecycle** against an arbitrary bus. `BusModel` is the master over a list of arbitrary answers: every call
into the stack takes the next one. Calls return the events they cause, so that a run has a trace. `ControllerModel` is the
controller as pure steps; `EcMaster`, `SlaveNodeObjects`, `EcController` and `MoEcatMaster` are the objects, whose methods
do exactly these steps on their fields. The run theorems are in `ControllerRuns`, `BringUpOrder`, `AdapterPairing`,
`ClockChoice`, `ClosedAdapter`, `Restart`, `SlaveCount`, `ProcessCycle`, `LifecycleOutcomes` and `Monitoring`.

**Concurrency and timing.** `AsyncLogger` and `ActivityScheduler` are atomic steps in arbitrary interleavings;
`CyclicRunner` is the loop against absolute deadlines.

**Codecs and arithmetic.** `ServoCodec` and `SlaveNodes` are the PDO codec and the node buffers, `DefaultNodes` what a
slave is configured as by default and what a default servo sends; `CycleStatistics` and `CycleAverages` are the 32-bit
statistics and what they mean for a history of cycles.

`dafny verify dfyconfig.toml` checks everything.

## Where the code differs from what one might expect

- EmergencyStop is left by Stop and also by a fault request, and by nothing else (`EmergencyStopLeftIff`,
  `EmergencyStopKeptIff`).
- Stop in a fault requests INIT even when the adapter was never opened (`InitWrittenUnopened`); this is the only AL write
  on a closed adapter (`WritesClosedIff`), and it happens exactly when the fault came before the adapter was opened
  (`ClosedInFaultIff`).
- Stop keeps the slave infos, the configuration and the slave count (`StopKeeps`). No result, state, AL write or other
  event of a later run can tell (`RestartEquivalent`), but the slave query and the fault snapshots go by the old count
  until slaves are scanned again (`CountShowsUntilScan`).
- A zero sample makes the minimum cycle time forget all before it (`MinForgets`); the minimum is the least sample exactly
  if there is no zero sample or the last one is zero (`MinIsLeastIff`).
- The first cycle counts without a sample, so with equal samples the average is always below the minimum
  (`UniformAverageBelowMin`); the exact condition is `MinBelowAverageIff`.
- The running average is the intended one exactly until its 32-bit product wraps (`ExactUntilWrap`). With a steady
  millisecond it stalls at 965 and falls to 0 once 4450743 cycles are counted (`MillisecondAverage`,
  `MillisecondCollapses`).
- Every 2^32 cycles the averaging step divides by zero (`DividesByZeroIff`): with a steady millisecond after 49.7 days
  (`MillisecondDividesByZero`). The statistics mean something exactly before that (`NeverDividesIff`).
- A PDO mapping with a negative offset is taken, with a buffer that does not contain its entries (`NegativeOffsetTaken`,
  `BufferCoversIff`).
- The activity flag is released before the failure policy is applied (`FaultMayTrailNextActivity`), so an activity can be
  under way before the failure of another takes effect, exactly if it is admitted in that gap (`FaultTrailsIff`).
- An exception of an activity or of the state provider leaves the activity flag set for ever (`ActivitiesExclusive`,
  `ExceptionKeepsFlag`).

## Assumptions of the model

- An answer of the bus may be anything, except that a slave count is not negative. A slave the answer says nothing about
  reads state 0.
- The readings of the fault snapshot have a list of answers of their own and are not in the trace.
- The clock step of the bring-up is part of the trace also when distributed clocks are switched off; the event says which.
- Double arithmetic is real arithmetic; a conversion to an integer truncates toward zero. The loop-back results ask for
  raw values in range, where that conversion is defined; outside, the model keeps the low-order bits.
- In a run, PDO mappings handed to a node have offsets, sizes and byte counts that are not negative; the node itself is modelled for all of them.
- In the cyclic runner the sleep ends exactly at its deadline.

## Model

| member | source | states |
|---|---|---|
| `SiiChecksum.CalcCrcByte` | examples/tool/python/esi_to_sii_bin.py:41-48 | the bit loop is eight steps of the shift register on `crc ^ byte` |
| `SiiChecksum.SiiCrc` | examples/tool/python/esi_to_sii_bin.py:51-55 | the byte loop computes the checksum of the first 14 bytes, or of all there are |
| `SiiChecksum.MessagePolyBit` | examples/tool/python/esi_to_sii_bin.py:51-55 | what "message as a polynomial" means: which exponent is which bit of which byte |
| `SiiChecksum.ChecksumIsRemainder` | examples/tool/python/esi_to_sii_bin.py:41-55 | a polynomial is the remainder of the message, of any length and with initial value 0xFF, modulo x^8 + x^2 + x + 1 if and only if it is the checksum |
| `SiiChecksum.UndetectedIffDivisible` | examples/tool/python/esi_to_sii_bin.py:41-55 | two messages of one length have the same checksum if and only if the generator divides their difference |
| `SiiChecksum.OddFlipsDetected` | examples/tool/python/esi_to_sii_bin.py:41-55 | every odd number of flipped bits changes the checksum |
| `SiiChecksum.BurstDetected` | examples/tool/python/esi_to_sii_bin.py:41-55 | every change confined to 8 consecutive bits changes the checksum |
| `SiiChecksum.TwoFlipsDetected` | examples/tool/python/esi_to_sii_bin.py:41-55 | any two flips fewer than 127 bits apart change the checksum |
| `SiiChecksum.TwoFlips127ApartUndetected` | examples/tool/python/esi_to_sii_bin.py:41-55 | two flips exactly 127 bits apart never do: the distance above is exact |
| `Gf2Polynomials.GeneratorTerms` | examples/tool/python/esi_to_sii_bin.py:41-48 | the generator of these results is x^8 + x^2 + x + 1, the 0x07 of the loop |
| `SiiStrings.StringTable.Add` | examples/tool/python/esi_to_sii_bin.py:69-79 | adding succeeds exactly if the stripped text can be interned; the index returned names the text; the table grows by that text at most |
| `SiiStrings.StringTable.Payload` | examples/tool/python/esi_to_sii_bin.py:81-87 | printing succeeds exactly below 256 strings and prints count, then length and latin-1 bytes of each |
| `SiiStrings.InternAllGrows` | examples/tool/python/esi_to_sii_bin.py:64-79 | interning keeps the table distinct and extends it; every text added is then known and nothing else entered |
| `SiiStrings.InternKnown` | examples/tool/python/esi_to_sii_bin.py:69-79 | texts that are all known add nothing |
| `SiiStrings.IndexOfStable` | examples/tool/python/esi_to_sii_bin.py:69-79 | a text keeps its index while the table grows |
| `SiiStrings.DecodeEncoded` | examples/tool/python/esi_to_sii_bin.py:75-86 | decoding the encoded characters gives the text, with a question mark for each character latin-1 lacks |
| `SiiStrings.Latin1Exact` | examples/tool/python/esi_to_sii_bin.py:75-86 | nothing is lost if and only if all characters are latin-1 |
| `SiiStrings.StripMeaning` | examples/tool/python/esi_to_sii_bin.py:69-70 | stripping takes only whitespace off the two ends, and leaves nothing or a text that neither begins nor ends with whitespace |
| `SiiStrings.StrippedOnce` | examples/tool/python/esi_to_sii_bin.py:69-70 | only one text can be left so: this says what stripping is |
| `EsiDevice.FindDefaultModules` | examples/tool/python/esi_to_sii_bin.py:204-223 | in slot order exactly the slots whose default identifier names a module, of several with one identifier the last declared, with slot number times SlotIndexIncrement and slot number times SlotPdoIncrement as offsets; the device itself comes before them |
| `EsiDevice.ModuleByIdIsLast` | examples/tool/python/esi_to_sii_bin.py:211-220 | an identifier names the last module declared with it, by position, and nothing if and only if there is none |
| `EsiDevice.SourcesBySlot` | examples/tool/python/esi_to_sii_bin.py:204-223 | the same of the sources on the description's own fields: the device without offsets and then the chosen slots, each with its number times the increments, and no others |
| `SiiPdos.AddPdoStrings` | examples/tool/python/esi_to_sii_bin.py:226-231 | interns exactly the PDO and entry names of all sources in document order |
| `SiiPdos.BuildPdoCategory` | examples/tool/python/esi_to_sii_bin.py:241-266 | with the names known: succeeds exactly if every record fits its packed fields, prints all records, and adds no string |
| `SiiPdos.DecodePdosBytes` | examples/tool/python/esi_to_sii_bin.py:241-266 | reading headers and then nEntry entries (ETG.1000.6, Tables 25 and 26) recovers every list of PDO records: the payload is uniquely decodable |
| `SiiPdos.PdosBytesLength` | examples/tool/python/esi_to_sii_bin.py:241-266 | the payload has 8 bytes for each PDO and each entry, so it is never padded |
| `SiiImage.BuildGeneral` | examples/tool/python/esi_to_sii_bin.py:149-176 | interns group, type and the name, the name being the type only where Name is missing or empty, in this order; succeeds exactly if they can be interned and their indices fit a byte; the 32 bytes are those of Table 21 |
| `SiiImage.BuildFmmu` | examples/tool/python/esi_to_sii_bin.py:179-185 | one byte for each FMMU, padded with 0xFF to an even number |
| `SiiImage.BuildSyncm` | examples/tool/python/esi_to_sii_bin.py:188-201 | succeeds exactly if all fields fit; eight bytes for each sync manager in order |
| `SiiImage.TableIsClosed` | examples/tool/python/esi_to_sii_bin.py:226-231 | after the first pass every text of the image is in the table, and a second build_general changes nothing |
| `SiiImage.BuildConfigurationArea` | examples/tool/python/esi_to_sii_bin.py:276-299 | the buffer before the categories: all overlapping writes in the source's order |
| `SiiImage.BuildCategories` | examples/tool/python/esi_to_sii_bin.py:301-321 | with the closed table: succeeds exactly if all parts and category sizes fit, and gives the whole chain with its end marker |
| `SiiImage.BuildImage` | examples/tool/python/esi_to_sii_bin.py:269-329 | succeeds exactly on the buildable descriptions, with exactly their image |
| `SiiFrame.ImageHasByteSize` | examples/tool/python/esi_to_sii_bin.py:275-289 | the image has ByteSize bytes if and only if ConfigData and BootStrap fit in it |
| `SiiFrame.ImageSize` | examples/tool/python/esi_to_sii_bin.py:275-289 | the size of every image: the largest of ByteSize, 2048 where it is missing, the length of ConfigData and the end of BootStrap |
| `SiiFrame.ChecksumStored` | examples/tool/python/esi_to_sii_bin.py:297-326 | byte 0x0E of the finished image is the checksum of its own first 14 bytes, byte 0x0F is 0 |
| `SiiFrame.EepromEndToEnd` | examples/tool/python/esi_to_sii_bin.py:275-321 | wherever neither a word nor a category is written, in the configuration area and behind the end marker, the finished image holds BootStrap from 0x28 on where it reaches, otherwise ConfigData, otherwise 0 in the configuration area and 0xFF behind it |
| `SiiFrame.ChecksumOfConfigData` | examples/tool/python/esi_to_sii_bin.py:280-299 | the checksum in the image is that of the first 14 bytes of ConfigData, padded with zeros |
| `SiiFrame.IdentityStored` | examples/tool/python/esi_to_sii_bin.py:282-299 | vendor, product, revision and serial words read back as the inputs modulo 2^32 despite the later writes |
| `SiiFrame.MailboxesStored` | examples/tool/python/esi_to_sii_bin.py:287-295 | with two sync managers the mailbox words read back as theirs, even when BootStrap overlaps them |
| `SiiFrame.TailStored` | examples/tool/python/esi_to_sii_bin.py:296-298 | protocol, size and version words read back |
| `SiiFrame.SizeReadBack` | examples/tool/python/esi_to_sii_bin.py:297 | (size word + 1) KiBit is ByteSize if and only if ByteSize is a whole number of KiBits that fits the word; up to there it is ByteSize rounded down |
| `SiiFrame.ProtocolBits` | examples/tool/python/esi_to_sii_bin.py:115-129 | each bit of the protocol word tells whether the mailbox has that protocol; the word is 0 without a mailbox |
| `SiiFrame.CoeBits` | examples/tool/python/esi_to_sii_bin.py:100-112 | each bit of the CoE byte tells whether its attribute is set |
| `SiiFrame.PortNibbles` | examples/tool/python/esi_to_sii_bin.py:171-175 | each nibble of the physics word is 1 exactly for a port of type Y |
| `SiiFrame.BothGeneralCallsAgree` | examples/tool/python/esi_to_sii_bin.py:303-308 | the discarded first build_general returns the bytes of the second |
| `SiiReader.FindCategory` | examples/tool/python/parse_eeprom.py:66-77 | the loop is the walk along the chain; it ends on any data |
| `SiiReader.FindIsExact` | examples/tool/python/parse_eeprom.py:66-77 | on every category chain closed by 0xFFFF, whatever follows and even if nothing does, the walk returns the offset of the first category of the kind, or nothing |
| `SiiReader.FirstOffsetMeaning` | examples/tool/python/parse_eeprom.py:66-77 | that offset: nothing if and only if no category has the kind; otherwise the first that has lies there |
| `SiiReader.ParseStrings` | examples/tool/python/parse_eeprom.py:21-47 | the strings or the exception, on any data, cut-off strings included |
| `SiiReader.ParseGeneral` | examples/tool/python/parse_eeprom.py:50-63 | the four texts or the exception, N/A for an index beyond the list |
| `SiiReader.ShowImage` | examples/tool/python/parse_eeprom.py:80-107 | what the tool shows of any data, or the exception it ends with; below 126 bytes that of the header lines |
| `SiiRoundTrip.Sections` | examples/tool/python/parse_eeprom.py:66-77 | every section located in a finished image is exactly the payload printed for it; an absent one was empty; no other kind is found |
| `SiiRoundTrip.StringsRoundTrip` | examples/tool/python/parse_eeprom.py:21-47 | parsing a printed table of any number of strings gives the strings back, in latin-1 |
| `SiiRoundTrip.LookupIndex` | examples/tool/python/parse_eeprom.py:60-63 | the parsed list at the index of a known text is that text |
| `SiiRoundTrip.TextsEndToEnd` | examples/tool/python/esi_to_sii_bin.py:149-160 | for every buildable description the reader shows, stripped and in latin-1, the group type, the type, and as the name the Name if there is one that is not empty, otherwise the type |
| `SiiRoundTrip.AllNamedAsDescribed` | examples/tool/python/esi_to_sii_bin.py:234-266 | the records with their names looked up are the PDOs of the description |
| `SiiRoundTrip.PdosEndToEnd` | examples/tool/python/esi_to_sii_bin.py:204-320 | for every buildable description reading the image gives the PDOs of the device and then, slot after slot, of the module each slot's default names, in both directions, with entries and names; a PDO that depends on its slot k reads back k PDO increments higher, such an entry k index increments higher |
| `SiiRoundTrip.DecodeSyncmBytes` | examples/tool/python/esi_to_sii_bin.py:188-201 | reading eight bytes a record recovers every list of sync managers |
| `SiiRoundTrip.SyncManagersEndToEnd` | examples/tool/python/esi_to_sii_bin.py:132-138 | for every buildable description reading the image gives every sync manager in order with address, size, control and enable byte, and type 1 to 4 for MBoxOut, MBoxIn, Outputs and Inputs, otherwise 0 |
| `SiiRoundTrip.FmmusEndToEnd` | examples/tool/python/esi_to_sii_bin.py:141-185 | for every buildable description category 40 has one byte for each FMMU in order, 1 for Outputs, 2 for Inputs, 3 for MBoxState and 0xFF for any other, and 0xFF after an odd number; there is none without FMMUs |
| `SiiRoundTrip.SectionNumbers` | examples/tool/python/esi_to_sii_bin.py:301-321 | in every image exactly the categories 10, 30 and, where they have anything, 40, 41, 50 and 51 are found, and 0xFFFF follows the last |
| `SiiRoundTrip.GeneralEndToEnd` | examples/tool/python/esi_to_sii_bin.py:149-176 | for every buildable description the located GENERAL section says exactly which CoE attributes, FoE, EoE, data link layer and identification register the device has and which ports are of type Y |
| `SiiWitnesses.EmptyDeviceBuildable` | examples/tool/python/esi_to_sii_bin.py:269-326 | some description is buildable: one with nothing in it |
| `SiiWitnesses.SmallDeviceBuildable` | examples/tool/python/esi_to_sii_bin.py:269-326 | so is one with a named PDO and entry, a slot with a default module and its PDO, and a sync manager |
| `ServoCodec.FindEntryByLoop` | src/slave_node/device_profile.cpp:14-22 | the first entry of the name, or none |
| `ServoCodec.FoundEntryIsFirst` | src/slave_node/device_profile.cpp:14-22 | none if and only if no entry has the name; otherwise the earliest that has |
| `ServoCodec.ScalingError` | src/slave_node/device_profile.cpp:79-102 | a value sent and read back is off by less than one scale unit, and by nothing if and only if it is a multiple of the scale |
| `ServoCodec.RawMeaning` | src/slave_node/device_profile.cpp:79-124 | the raw value of a target counts scale units, rounded toward zero, with the sign of the direction, and a value read is its raw value in scale units with that sign |
| `ServoCodec.BytesMeaning` | src/slave_node/device_profile.cpp:24-32 | a raw value goes out in two's complement, lowest byte first, in four bytes or two |
| `ServoCodec.WriteKeepsOthers` | src/slave_node/device_profile.cpp:24-32 | writing an entry leaves the bytes of every disjoint entry unchanged |
| `ServoCodec.EncodedValues` | src/slave_node/device_profile.cpp:79-102 | after encoding all three entries hold their raw values |
| `ServoCodec.RawLoopBack` | src/slave_node/device_profile.cpp:79-116 | decoding an encoded buffer reads exactly the raw values that were sent |
| `ServoCodec.ServoLoopBack` | src/slave_node/device_profile.cpp:79-124 | for every mapping with disjoint entries and matching offsets, in-range targets and direction 1 or -1, each axis value comes back within one scale unit |
| `ServoCodec.EncodeKeepsRest` | src/slave_node/device_profile.cpp:79-102 | encoding touches no byte outside the three command entries |
| `SlaveNodes.ComputeSize` | src/slave_node/slave_node.cpp:79-101 | the loop computes, in size_t, the furthest end of an entry, or the fallback size |
| `SlaveNodes.SizeIsCovering` | src/slave_node/slave_node.cpp:79-101 | without negative values that is the covering size |
| `SlaveNodes.ResizeFailsIff` | src/slave_node/slave_node.cpp:79-101 | no buffer can have that size if and only if some entry ends below 0, or all end at 0 and the fallback is negative |
| `SlaveNodes.BufferCoversIff` | src/slave_node/slave_node.cpp:79-101 | where a buffer can have the size, it contains every entry if and only if no entry has a negative offset or size |
| `SlaveNodes.NegativeOffsetTaken` | src/slave_node/slave_node.cpp:79-101 | a mapping that is taken and not contained: an entry of 4 bytes at offset -2 gets a buffer of 2 |
| `SlaveNodes.ExtentIsLeast` | src/slave_node/slave_node.cpp:79-101 | a buffer contains every entry if and only if it reaches the extent |
| `SlaveNodes.SizeCovers` | src/slave_node/slave_node.cpp:79-101 | the computed size covers every entry and, where an entry has any extent, is the least that does |
| `DefaultNodes.DetectedIff` | src/slave_node/slave_type_detector.cpp:35-65 | a slave is a servo if and only if it is vendor 0x766, product 0x2000, or its name has servo, motor or drive in any case; otherwise digital, analog or unknown by the other words |
| `DefaultNodes.AutoSizes` | src/slave_node/slave_config_factory.cpp:31-111 | a node configured by default has 10 bytes each way as a servo, 1 as digital, 4 as analog and none otherwise, and a servo has the layout position, velocity, torque, scales of 0.001 and direction 1 |
| `DefaultNodes.DefaultServosReady` | src/slave_node/slave_node_manager.cpp:26-52 | in every run that sets no mapping, when ready to run or operational, the node of each slave that the bus gave these identifiers or a servo's name is a default servo, with a mapping the loop-back results hold for, and every node has the buffers of its type |
| `DefaultNodes.ServoOnWire` | src/slave_node/device_profile.cpp:79-103 | a default servo sends ten bytes in a cycle: position and velocity in four each, torque in two |
| `DefaultNodes.TargetOnWire` | src/slave_node/slave_node.cpp:162-177 | and they are those of the target last set |
| `DefaultNodes.DefaultServoLoopBack` | src/slave_node/slave_node.cpp:162-194 | a default servo whose outputs the bus returns reads positions and velocities up to 2147483 and torques up to 32 back within 0.001 |
| `SlaveNodes.NodeLoopBack` | src/slave_node/slave_node.cpp:162-194 | a configured servo whose outputs the bus returns reads its targets back within one scale unit |
| `SlaveNodeObjects.SlaveNode.Configure` | src/slave_node/slave_node.cpp:17-33 | for any mapping, on any node, also one whose earlier configuration threw: false exactly if configured; throws exactly if a size is impossible, the configuration set but the node not configured; otherwise buffers of the computed sizes and a fresh axis, and a well-formed mapping is covered |
| `SlaveNodeObjects.SlaveNode.SetPdoMapping` | src/slave_node/slave_node.cpp:150-160 | for any mapping, whatever the node had before: ignored without a configuration; otherwise taken over and the buffers resized, which throws exactly if a size is impossible; a well-formed mapping is covered, old bytes kept |
| `SlaveNodeObjects.SlaveNode.UpdatePdoOutput` | src/slave_node/slave_node.cpp:162-177 | encodes and sends the whole output buffer, if there is one |
| `SlaveNodeObjects.SlaveNode.UpdatePdoInput` | src/slave_node/slave_node.cpp:179-194 | reads the whole input buffer, if there is one, and decodes it |
| `SlaveNodeObjects.SlaveNodeManager.Initialize` | src/slave_node/slave_node_manager.cpp:12-24 | one new unconfigured node for each slave, in order |
| `SlaveNodeObjects.SlaveNodeManager.ConfigureAll` | src/slave_node/slave_node_manager.cpp:26-52 | every unconfigured node gets the configuration of its type: by identifiers or name a default servo, by its type the buffers of 10, 1, 4 or 0 bytes; the others stay; never fails |
| `SlaveNodeObjects.SlaveNodeManager.UpdateAllOutputs` | src/slave_node/slave_node_manager.cpp:82-89 | every configured node is encoded and sent once, in order |
| `SlaveNodeObjects.SlaveNodeManager.UpdateAllInputs` | src/slave_node/slave_node_manager.cpp:91-98 | every configured node is read and decoded once, in order |
| `EcMasters.EcMaster.Initialize` | src/ec_master/ec_master.cpp:23-34 | the adapter opens if the stack says so; otherwise the flag keeps its value |
| `EcMasters.EcMaster.Close` | src/ec_master/ec_master.cpp:36-45 | closes at most once |
| `EcMasters.EcMaster.ScanSlaves` | src/ec_master/ec_master.cpp:47-64 | the infos of as many slaves as the stack returns; none if it returns none |
| `EcMasters.EcMaster.RequestState` | src/ec_master/ec_master.cpp:151-158 | one write, one wait, true if the state is then the one requested |
| `EcMasters.EcMaster.RequestStateWithRetry` | src/ec_master/ec_master.cpp:177-205 | the loop is the retry protocol below, for any number of retries |
| `EcMasters.EcMaster.CheckAllSlavesInState` | src/ec_master/ec_master.cpp:207-220 | one reading; true if and only if every slave shows the state |
| `EcMasters.EcMaster.RunOneCycle` | src/ec_master/ec_master.cpp:235-268 | one exchange; the statistics stay those of the whole history of cycles for as long as no cycle has divided by zero |
| `BusModel.RetryBound` | src/ec_master/ec_master.cpp:177-205 | against any bus: at most one write a round, and true only if the last reading is the target |
| `EcTypes.ReadingsInNumbers` | src/ec_master/ec_master.cpp:187-190 | a reading shows an error exactly if its low five bits are 16 or more; its acknowledgement is its low four bits and 16 |
| `EcTypes.ReadingsOfTable` | src/ec_master/ec_master.cpp:207-220 | all slaves show a state exactly if the table has that state for each of slaves 1 to n |
| `BusModel.RetryNeverBlind` | src/ec_master/ec_master.cpp:177-205 | every write answers the reading just before it, which is not the target: after a reading whose low five bits are 16 or more it is the low four bits of that reading and 16, after any other the target |
| `BusModel.RetrySucceedsIff` | src/ec_master/ec_master.cpp:177-205 | the loop succeeds if and only if in some round the reading shows the target, or has its low five bits below 16 and the check after the write shows the target; it ends in the first such round, with exactly the answers up to there used |
| `BusModel.ObedientSlaveReached` | src/ec_master/ec_master.cpp:177-205 | a slave that clears its error on acknowledge and then follows is reached within two rounds |
| `CycleStatistics.CountersExact` | src/ec_master/ec_master.cpp:260-266 | cycle_count, wkc_mismatch_count and consecutive_wkc_mismatch are the length, the mismatches and the trailing run of mismatches of the history |
| `CycleStatistics.MismatchesMeaning` | src/ec_master/ec_master.cpp:260-263 | those mismatches are the number of cycles without the expected working counter |
| `CycleStatistics.TrailingMeaning` | src/ec_master/ec_master.cpp:261-266 | the trailing run is the longest stretch of mismatches at the end |
| `CycleStatistics.SampleMeaning` | src/ec_master/ec_master.cpp:243-248 | a sample is the time between two cycles in whole microseconds |
| `CycleStatistics.AverageBounds` | src/ec_master/ec_master.cpp:244-257 | while less than 2^32 microseconds were measured in fewer than 2^32 cycles no averaging step wraps, 0 <= S - avg n <= n (n - 1) / 2, and S <= (n - 1) max |
| `CycleStatistics.AverageBelowMax` | src/ec_master/ec_master.cpp:244-257 | in that range the average is at most the maximum |
| `CycleStatistics.AverageExactIff` | src/ec_master/ec_master.cpp:255-256 | one averaging step gives the intended quotient if and only if the 32-bit product and sum do not wrap |
| `CycleAverages.CycleCountModulo` | src/ec_master/ec_master.cpp:260 | the count is the length of the history modulo 2^32 |
| `CycleAverages.DividesByZeroIff` | src/ec_master/ec_master.cpp:255-256 | with a clock that has left zero the next cycle divides by zero if and only if the history is one cycle short of a multiple of 2^32 |
| `CycleAverages.NeverDividesIff` | src/ec_master/ec_master.cpp:255-256 | a history is free of that division if and only if it is shorter than 2^32 cycles |
| `CycleAverages.MillisecondDividesByZero` | src/ec_master/ec_master.cpp:255-256 | the input: 2^32 cycles of a steady millisecond |
| `CycleAverages.ProductFits` | src/ec_master/ec_master.cpp:244-257 | in every history with a clock that has left zero in which no cycle divided by zero, average times cycle count stays below 2^32, wrapped or not |
| `CycleAverages.ExactUntilWrap` | src/ec_master/ec_master.cpp:255-256 | in every steady history the average is at every cycle the one of unbounded arithmetic if and only if no step, taken on that average, reaches 2^32 |
| `CycleAverages.LastExactIff` | src/ec_master/ec_master.cpp:255-256 | after exact cycles the next is exact if and only if its step does not wrap, and too small if it does |
| `CycleAverages.MillisecondAverage` | src/ec_master/ec_master.cpp:244-257 | with a millisecond between all cycles the average is 965 from the 36th cycle to the one numbered 4450743, and 0 in the next |
| `CycleAverages.MillisecondCollapses` | src/ec_master/ec_master.cpp:244-257 | that history exists: there the intended average is still 965, and all averages before were exact |
| `CycleAverages.UniformAverageBelowMin` | src/ec_master/ec_master.cpp:244-266 | in every history with equal positive samples the average is below the minimum, because the first cycle is counted without a sample |
| `CycleAverages.MinBelowAverageIff` | src/ec_master/ec_master.cpp:249-257 | a step without wrap ends with minimum at most average if and only if minimum times the new count is at most the sum it divides |
| `CycleAverages.MinBelowAverageOverHistory` | src/ec_master/ec_master.cpp:249-257 | the same for every steady history, in terms of its samples |
| `CycleStatistics.ExtremesExact` | src/ec_master/ec_master.cpp:249-254 | the minimum and maximum are the two folds over the samples |
| `CycleStatistics.MaxIsGreatest` | src/ec_master/ec_master.cpp:252-254 | the maximum is at least every sample and, unless 0, one of them |
| `CycleStatistics.MinIsLeastSinceZero` | src/ec_master/ec_master.cpp:249-251 | the minimum bounds the samples since the last zero sample |
| `CycleStatistics.MinIsLeastIff` | src/ec_master/ec_master.cpp:249-251 | the minimum is at most every sample of a steady history if and only if no sample is zero or the last one is |
| `CycleStatistics.MinForgets` | src/ec_master/ec_master.cpp:249-251 | a zero sample makes the next sample the minimum, however large |
| `EcControllers.EcController.Dispatch` | src/ec_controller/ec_controller.cpp:187-258 | on the object's fields, every action does exactly the step of the lifecycle model, with its events |
| `EcControllers.EcController.DoScan` | src/ec_controller/ec_controller.cpp:324-373 | the scan, the checks in order and the shutdown on a mismatch |
| `EcControllers.EcController.MatchesConfig` | src/ec_controller/ec_controller.cpp:332-362 | the three checks accept exactly the expected count and identities |
| `EcControllers.EcController.DoEnterMaintenance` | src/ec_controller/ec_controller.cpp:376-409 | PRE_OP requested and confirmed, infos refreshed, nodes created; otherwise shutdown |
| `EcControllers.EcController.DoPrepareRun` | src/ec_controller/ec_controller.cpp:265-287 | nodes, process data, SAFE_OP, clocks; the first failure enters Fault |
| `EcControllers.EcController.DoStartOperation` | src/ec_controller/ec_controller.cpp:290-305 | OPERATIONAL requested and confirmed, otherwise Fault |
| `EcControllers.EcController.DoBackToMaintenance` | src/ec_controller/ec_controller.cpp:227-251 | both ways back to PRE_OP; failure enters Fault |
| `EcControllers.EcController.DoShutdown` | src/ec_controller/ec_controller.cpp:489-518 | the roll-back of the state found, then nodes cleared, adapter closed, Uninitialized |
| `EcControllers.EcController.EnterStopped` | src/ec_controller/ec_controller.cpp:521-549 | the snapshot of all slaves and the state change |
| `EcControllers.EcController.Initialize` | src/ec_controller/ec_controller.cpp:563-577 | the three bring-up calls up to the first failure |
| `EcControllers.EcController.InitializeAdapter` | src/ec_controller/ec_controller.cpp:580-589 | the configuration is taken over only in Uninitialized |
| `EcControllers.EcController.Stop` | src/ec_controller/ec_controller.cpp:647-654 | nothing in Uninitialized, otherwise the shutdown |
| `ControllerRuns.Outcome` | src/ec_controller/ec_controller.cpp:124-140 | outside its states a lifecycle call changes nothing and does nothing on the bus; inside, its result determines the next state |
| `ControllerRuns.RequestsAlwaysWin` | src/ec_controller/ec_controller.cpp:187-197 | fault and emergency requests and Stop lead to their states from everywhere, a cycle changes no state, a check only to Fault |
| `ControllerRuns.EmergencyStopLeftIff` | src/ec_controller/ec_controller.cpp:187-197 | a call leaves EmergencyStop if and only if it is Stop or a fault request |
| `ControllerRuns.EmergencyStopKeptIff` | src/ec_controller/ec_controller.cpp:187-197 | a run stays in EmergencyStop throughout if and only if it contains neither |
| `ControllerRuns.StoppedIsQuiet` | src/ec_controller/ec_controller.cpp:133-140 | from Fault or EmergencyStop every run without Stop stays in the two states and sends no AL request, no configuration and no exchange |
| `ControllerRuns.NodesFitAlways` | src/slave_node/slave_node_manager.cpp:12-52 | over every run: from Maintenance on the nodes are exactly slaves 1 to n in order; ready to run or operational all are configured; configured buffers always cover their mappings |
| `ProcessCycle.CycleComplete` | src/cyclic/process_data_engine.cpp:16-26 | in Operational one cycle writes every slave's non-empty outputs exactly once, whole and encoded, before the exchange, and reads its non-empty inputs exactly once after it |
| `LifecycleOutcomes.InitializeSucceedsIff` | src/ec_controller/ec_controller.cpp:563-577 | the three bring-up calls together succeed if and only if, in the answers of the bus, the adapter opens, the scan shows the expected slaves, and PRE_OP is reached in a round of the retry loop and then read on every slave |
| `LifecycleOutcomes.ScanSucceedsIff` | src/ec_controller/ec_controller.cpp:324-373 | a scan succeeds if and only if the answer has slaves in the expected number with the expected identities by position |
| `LifecycleOutcomes.ScanReports` | src/ec_master/ec_master.cpp:47-64 | the slaves a scan reports are numbered from 1, with the identities and states in the answer |
| `LifecycleOutcomes.MaintenanceEnteredIff` | src/ec_controller/ec_controller.cpp:376-409 | in terms of the answers to come: Maintenance is entered if and only if one of the four rounds first reads PRE_OP, or reads no error and PRE_OP after its write, and the answer after that round shows PRE_OP on every slave |
| `LifecycleOutcomes.PreparedIff` | src/ec_controller/ec_controller.cpp:265-287 | the run is prepared if and only if there are slaves and SAFE_OP is confirmed by request and by every slave |
| `LifecycleOutcomes.OperationalIff` | src/ec_controller/ec_controller.cpp:468-484 | Operational is reached if and only if OPERATIONAL is confirmed by request and by every slave |
| `LifecycleOutcomes.BackIff` | src/ec_controller/ec_controller.cpp:227-251 | the same condition decides the way back, one answer later from Operational, whatever that answer to the SAFE_OP request says |
| `LifecycleOutcomes.StopWrites` | src/ec_controller/ec_controller.cpp:489-518 | the AL states Stop writes: SAFE_OP, PRE_OP, INIT level by level from the working states, INIT alone from a fault, none before Maintenance |
| `LifecycleOutcomes.CallWrites` | src/ec_controller/ec_controller.cpp:124-305 | the AL states of every call in every state, all written to all slaves at once: SAFE_OP to prepare, OPERATIONAL to start, SAFE_OP first on the way back from Operational, PRE_OP with acknowledgements to enter Maintenance or return to it; no other call but Stop writes any |
| `LifecycleOutcomes.ObedientBusOperational` | src/ec_controller/ec_controller.cpp:563-577 | a bus of any number of obedient slaves is brought up to Operational |
| `BringUpOrder.OperationalOnlyAfterBringUp` | src/ec_controller/ec_controller.cpp:265-305 | in every run each OPERATIONAL request comes after the entry to Maintenance, ConfigureAll, ConfigureProcessData, SAFE_OP requested, SAFE_OP read on all slaves and the clock step, in this order, with no other AL write between |
| `ClockChoice.ClocksAsConfigured` | src/ec_controller/ec_controller.cpp:580-589 | over every run a configuration is taken over exactly by a call that initializes an uninitialized controller, every clock step goes by the configuration in force, and a prepared run has had one |
| `AdapterPairing.RunGood` | src/ec_controller/ec_controller.cpp:308-321 | over every run Uninitialized implies a closed adapter and the five working states an open one |
| `AdapterPairing.AdapterPaired` | src/ec_master/ec_master.cpp:10-45 | over every lifetime, destructors included, successful ecx_init and ecx_close strictly alternate and end closed |
| `ClosedAdapter.WritesClosedIff` | src/ec_controller/ec_controller.cpp:505-511 | in every run an AL state is written on a closed adapter if and only if it is the first event of a Stop in Fault or EmergencyStop with the adapter closed, and it is INIT |
| `ClosedAdapter.ClosedInFaultIff` | src/ec_controller/ec_controller.cpp:537-549 | the adapter of a stopped controller is closed if and only if the controller was uninitialized when it was stopped |
| `ClosedAdapter.InitWrittenUnopened` | src/ec_controller/ec_controller.cpp:505-511 | a run that does it: a fault requested first of all, then Stop |
| `Restart.SameRuns` | src/ec_controller/ec_controller.cpp:187-518 | two equivalent controllers, fed the same answers, give the same results, states and events over every run |
| `Restart.StopEquivalent` | src/ec_controller/ec_controller.cpp:489-518 | after Stop a controller is equivalent to a new one |
| `Restart.RestartEquivalent` | src/ec_controller/ec_controller.cpp:489-518 | after any run and Stop, every further run gives the results, states, AL writes, readings and configuration calls of a new controller, and its slave infos wherever slaves are known |
| `SlaveCount.RunsFollow` | src/ec_controller/ec_controller.cpp:187-518 | over every run of two equivalent controllers the slave counts agree if and only if they did before or the run scanned |
| `SlaveCount.CountShowsUntilScan` | src/ec_controller/ec_controller.cpp:489-518 | after Stop the slave count is that of a new controller if and only if the stopped one had none or the run since has scanned |
| `Restart.StopKeeps` | src/ec_controller/ec_controller.cpp:514-516 | although infos, configuration and slave count survive |
| `MoEcatMasters.ProcessDataEngine.RunOnce` | src/cyclic/process_data_engine.cpp:16-26 | the cycle of the model, and nothing outside Operational |
| `MoEcatMasters.ProcessDataEngine.CheckSlaveStates` | src/cyclic/process_data_engine.cpp:30-52 | at most one check in 500 ms, in Maintenance and Operational only; a wrong state requests the fault |
| `MoEcatMasters.MoEcatMaster.BeginRuntimeTransition` | src/core/mo_ecat_master.cpp:321-330 | a valid state is announced as it is, any other as entering Fault; what is announced is valid |
| `MoEcatMasters.MoEcatMaster.CurrentRuntimeState` | src/core/mo_ecat_master.cpp:345-358 | the announced state if valid, else the state of the controller |
| `MoEcatMasters.MoEcatMaster.BackToMaintenance` | src/core/mo_ecat_master.cpp:250-263 | the controller's step, shown as leaving Run or as entering Maintenance |
| `MoEcatMasters.MoEcatMaster.Stop` | src/core/mo_ecat_master.cpp:265-272 | the controller's step, shown as leaving the current state |
| `MoEcatMasters.MoEcatMaster.Service` | src/core/mo_ecat_master.cpp:290-309 | cycle and check exactly where the runtime state allows them |
| `RuntimeStates.RuntimeStateFaithful` | src/core/mo_ecat_master.cpp:43-69 | the runtime state is always valid and stable, names each controller state, and opens each gate in exactly one |
| `RuntimeStates.GatesClosedInTransition` | src/core/runtime_state.cpp:36-48 | while a transition is announced neither maintenance activities nor process data may run |
| `Monitoring.FaultExactly` | src/cyclic/process_data_engine.cpp:30-52 | Service raises a fault if and only if the state is watched, 500 ms have passed since the last check, and a slave is read in the wrong state |
| `Monitoring.ServiceCycles` | src/core/mo_ecat_master.cpp:290-309 | a service call in Operational, with no transition announced, begins with exactly one cycle; no other service call has any part of one |
| `Monitoring.FaultWasRead` | src/cyclic/process_data_engine.cpp:39-47 | a fault raised by Service follows directly on a reading of a slave outside PRE_OP in Maintenance, or outside OPERATIONAL in Operational |
| `Monitoring.NoCheckSince` | src/cyclic/process_data_engine.cpp:30-36 | as long as no fault is raised no check was made since the slave dropped out |
| `Monitoring.NoticedByAnyLateCall` | src/core/mo_ecat_master.cpp:290-309 | any service call 500 ms or more after the dropout leaves the controller in Fault |
| `Monitoring.DropoutNoticed` | src/core/mo_ecat_master.cpp:290-309 | with service calls at most G apart the controller is in Fault by t + 500 ms + G |
| `AsyncLogger.LoggerConserves` | src/utils/logger.cpp:177-227 | in every interleaving: accepted is what was logged and enqueued before the shutdown, in the order of the enqueueing; accepted = written ++ rest of the batch ++ queue; a parked worker with work has a notification coming; and when the worker has exited written = accepted |
| `AsyncLogger.LogTakesEffect` | src/utils/logger.cpp:177-191 | a call of Log with a sink on at the level of the record or a lower one puts the record on its way; any other call changes nothing |
| `AsyncLogger.AcceptedAsLogged` | src/utils/logger.cpp:193-199 | over every possible run accepted is, for each Enqueue before the shutdown began, in their order, the record its producer logged last |
| `AsyncLogger.EnqueueHasRecord` | src/utils/logger.cpp:189-198 | each Enqueue has such a record, and with unchanging sinks some sink is on for its level |
| `AsyncLogger.RecordReachesFile` | src/utils/logger.cpp:177-227 | a record logged before destruction reaches the file: a whole run that shows it |
| `AsyncLogger.WorkBounded` | src/utils/logger.cpp:24-33 | after shutdown the worker takes boundedly many steps |
| `AsyncLogger.NeverStuck` | src/utils/logger.cpp:203-227 | and until it exits some step of worker or notifier brings it closer: the join ends |
| `AsyncLogger.JoinEnds` | src/utils/logger.cpp:24-33 | once the worker has exited the destructor can always return |
| `AsyncLogger.SinksComplete` | src/utils/logger.cpp:157-175 | with unchanging sinks, after destruction each sink has received exactly the records of its level and above that were logged and enqueued before the shutdown, in order, and each of them was for some sink |
| `CyclicRunners.CyclicRunner.RunLoop` | src/cyclic/cyclic_runner.cpp:55-71 | iteration k starts at start + k * period + its lateness |
| `CyclicRunners.LateIsGreatestExcess` | src/cyclic/cyclic_runner.cpp:55-71 | the lateness is the greatest excess of cost over period of any stretch of iterations just before |
| `CyclicRunners.OnTimeIff` | src/cyclic/cyclic_runner.cpp:55-71 | an iteration starts on time if and only if no such stretch exceeded its periods |
| `CyclicRunners.FittingTasksNeverLate` | src/cyclic/cyclic_runner.cpp:68-69 | no drift: tasks that fit the period start exactly on time for ever |
| `CyclicRunners.CatchesUp` | src/cyclic/cyclic_runner.cpp:68-69 | with slack s a cycle the lateness shrinks by s a cycle |
| `CyclicRunners.CaughtUp` | src/cyclic/cyclic_runner.cpp:68-69 | after lateness d the schedule is caught up within d / s cycles, rounded up |
| `ActivitySchedulers.ActivityScheduler.Execute` | src/activity/activity_scheduler.cpp:19-66 | refused while one runs or outside its states; a failure does to the controller what its policy says; the flag is released on every path but an exception of the provider or the activity, which leaves it set |
| `ActivitySchedulers.PolicyOutcome` | src/activity/activity_scheduler.cpp:49-63 | a failure leaves the controller in Fault, in Uninitialized or as it was, by its policy |
| `ActivitySchedulers.StartedIff` | src/activity/activity_scheduler.cpp:31-39 | an admitted activity executes if and only if the state read is one it may start in; otherwise the flag is free again |
| `ActivitySchedulers.ActivitiesExclusive` | src/activity/activity_scheduler.cpp:26-62 | in every interleaving of any number of threads at most one activity is admitted or executing, and the flag is left set with nobody inside if and only if there was an exception |
| `ActivitySchedulers.ExceptionKeepsFlag` | src/activity/activity_scheduler.cpp:31-35 | a run that ends so: the state provider throws for the first activity |
| `ActivitySchedulers.FaultTrailsIff` | src/activity/activity_scheduler.cpp:42-62 | in every interleaving an activity is under way while a failure is not yet applied if and only if some call found the flag clear while a failure was still to be applied |
| `ActivitySchedulers.OrderlyCallersNeverTrail` | src/activity/activity_scheduler.cpp:42-62 | that never happens when each call returns before the next begins |
| `ActivitySchedulers.SingleCallerIsOrderly` | src/activity/activity_scheduler.cpp:42-62 | nor, therefore, with a single calling thread |
| `ActivitySchedulers.FaultMayTrailNextActivity` | src/activity/activity_scheduler.cpp:45-62 | the flag is released before the policy is applied: a second activity can execute before the fault of the first |

## Left out

- The EtherCAT stack, sockets and timeouts: replaced by arbitrary answers. AL writes the stack makes by itself are not in the trace.
- XML parsing, number parsing, the search for the device by product code, command lines, files and printed text of the Python tools: the model starts from the parsed description and ends with the bytes or the texts shown.
- What the fixed-header lines of the reader print: single field accesses, covered by the `SiiFrame` results.
- Log formatting, timestamps, log levels at compile time, opening and flushing of log files, and a callback that throws.
- Threads, priorities, CPU affinity and the mutex around the stack: every call of the master is one atomic step of the model.
- The individual SDO activities, SDO access, the PDO dump, state requests for single nodes (called by no code of the repository), and the display strings: only easy members.
- The Digital IO, Analog IO and unknown profiles encode and decode nothing, as in the source.
- Re-entrant lifecycle calls from a callback, which would clear the announced transition of the outer call.
- Alias addresses, mailbox fields and other slave data that is only printed; the configuration's interface name, cycle time and log settings.
- The time of the last state check and the cycle statistics survive Stop; the restart theorem is about the controller and the calls on it, where each check is made, not about when the engine makes one.
- IEEE rounding, and out-of-range conversions of doubles, which are undefined in C++.
- What the process does once the averaging step has divided by zero, or a cycle has used a mapping that its buffers do not contain: both are undefined in the source.
- The physical size of the process image: reading copies only where the answer holds enough bytes.
- SlaveNodeObjects.SlaveNode.Configure: the fields of a mapping and the sums the source forms of them are ints; sums beyond the int range are undefined in the source.
- SlaveNodeObjects.SlaveNode.SetPdoMapping: the same.
- ControllerRuns.NodesFitAlways: is about runs whose mappings have no negative values, because by `BufferCoversIff` the buffers of the others do not contain them and their cycles are undefined in the source.
- SlaveNodeObjects.SlaveNodeManager.ConfigureAll: cannot fail in the model, because no node that is not configured refuses its configuration; the source's failure branch is therefore not written out in the controller.
- Restart.RestartEquivalent: leaves out the fault snapshots, which read as many slaves as the last scan found, and the query of the slave count before slaves are scanned, because these are the two places where the past shows.
