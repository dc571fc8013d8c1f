# A verified model of the arm-gic drivers

The crate drives the Arm Generic Interrupt Controller: versions 3 and 4 through a
distributor and one redistributor per core, version 2 through a distributor and a
CPU interface. This project models both drivers in Dafny and proves what their
register accesses amount to.

* **Configuration as a map.** `RegisterBank`, `Banks`, `RegisterFile` and
  `GicV3Driver` hold the packed registers in arrays and change them with the
  driver's own read-modify-writes and strided loops. The set-enable and
  clear-enable registers are two views of one array, with write-one-to-set and
  write-one-to-clear behaviour. `Configuration` says what each call does to one
  interrupt, and `ConfigurationRuns` what whole runs of calls do.
* **Handshakes.** `WakerProtocol`, `ControlBarrier` and `PowerSequence` put the
  hardware beside the driver as a second party that takes steps of its own between
  any two register accesses. In the first two, a countdown chosen by the hardware
  makes every request complete after a finite time. In the third the hardware may
  give the register any value at any instant, so that every behaviour is covered,
  and a run is observed for as long as a finite sequence of values lasts; the loops
  that may never end return `StillRunning` when the observation ends.
* **Addressing.** `SgiRouting` relates the value that generates an SGI to the
  affinity a redistributor reports; `Layout` places the redistributors in memory.
* **GICv2.** `GicV2Driver` is the second driver, `GicV2Lines` the effect of its calls
  on the interrupt lines, `GicV2Runs` what whole runs do, and `GicV2Sgi` whom its
  SGIs reach. `Comparison` states where the two drivers agree and where they do not.
* **Example.** The example of the crate's documentation, on hardware built from
  nothing.
* `IntIds` and `TypeRegisters` cover identifiers and identification registers,
  `Bits` the word arithmetic underneath.

An `Entry` (or a `Line` of the GICv2) holds every bit the registers have about an
interrupt, so a map of entries leaves out nothing. The `View` of an entry is its
decoded setting: enabled, group, trigger and priority.

Contracts use specification functions and predicates. Lemmas whose names end in
`InFull`, `SpelledOut`, `ByNumber` or `Bits` say in raw bits, literal numbers and
whole states what these stand for.

A precondition of a driver method is a condition under which the Rust code does not
panic: a private interrupt needs a core, the core index is in range, the identifier
is below 1024, and a software-generated interrupt is below 16.

## Where the code and its documentation differ

The model follows the code.

* GICv3 `enable_interrupt(.., false)` sets a bit of a clear-enable register by
  read-modify-write. The register reads back all enabled bits, so the write disables
  every interrupt of the word. `DisableAsDocumented` gives the exact condition
  under which only the named interrupt is affected.
* GICv2 `set_interrupt_priority` overwrites the word of four priorities;
  `GicV2Runs.PriorityAsDocumented` gives the exact condition under which the other
  three keep theirs.
* The wait for a power transition samples the register once and loops on that
  sample; `PowerOnStuck` and `PowerOffDecided` state the consequence.
* GICv2 `SgiTarget::All` is documented as leaving out the current core;
  `AllReachesSender` shows that it does not. It also leaves bit 15 clear, which
  `List` sets, so a secure `All` request misses the interrupts that a setup has put
  into group 1: `SetupHidesSecureAll`.
* GICv3 `setup` puts interrupts into non-secure group 1 by their group bit alone and
  leaves the modifier bits, which `set_group` clears, as they are:
  `SetupLeavesModifier`. The decoded group is the same.
* A bulk write for 988 SPIs clears the group bits of the special identifiers 1020 to
  1023, which share the last word; `StridedBits` and `SpecialIdsNeedModifier`.

## Model

| member | source | states |
|---|---|---|
| IntIds.ClassifyInvertsConstruction | src/lib.rs:143-237 | Classifying an identifier and constructing one from its kind and number are inverse on all 32-bit identifiers, so the kinds partition them; `is_sgi`, `is_ppi` and `is_spi` are the kinds of the same name |
| IntIds.KindsByNumber | src/lib.rs:112-141 | The bounds of all ranges in numbers |
| IntIds.TextInjective | src/lib.rs:213-237 | Two different identifiers never print the same text |
| IntIds.TextsByNumber | src/lib.rs:213-237 | The label of each range |
| IntIds.DecimalReadsBack | src/lib.rs:213-237 | A printed number has decimal digits only, no leading zero, and reads back as itself |
| IntIds.EnumerationIsExact | src/lib.rs:197-210 | The private identifiers followed by the SPIs are 0 to 1019, each once and in order |
| TypeRegisters.NumSpisShape | src/gicv3/registers.rs:295-299 | The SPI count is 32 per line up to the cap of 988, which is reached exactly with 31 lines and is the only count that leaves a partial word, of 28 |
| TypeRegisters.PowerManagedModels | src/gicv3/registers.rs:111-122 | Whatever the variant and revision fields, exactly Arm's products 2, 3 and 4 need power management |
| TypeRegisters.CoreMpidrBits | src/gicv3/registers.rs:136-157 | The MPIDR has affinity levels 2 to 0 from the low 24 bits of the upper half of the type register, and level 3 in bits 39 to 32 from its top byte |
| TypeRegisters.AffinityBits | src/gicv3/registers.rs:132-138 | The four affinity levels are the four bytes of the upper half of the type register |
| TypeRegisters.MpidrRoundTrip | src/gicv3/registers.rs:144-157 | Reading the affinity out of a spaced MPIDR gives back all four levels, and no other bit is set |
| TypeRegisters.MpidrIdentifiesCore | src/gicv3/registers.rs:140-157 | Two redistributors have the same MPIDR exactly when they have the same affinity |
| SgiRouting.EncodingRoundTrip | src/gicv3.rs:331-350 | Decoding the value under the layout of ICC_SGI1R_EL1 gives back every field of the request |
| SgiRouting.ValueBits | src/gicv3.rs:331-350 | Where each field of the request lies in the written word, and that all else is zero |
| SgiRouting.EncodingInjective | src/gicv3.rs:328-350 | Two requests with the same value are the same request; All is told from every List |
| SgiRouting.ListReaches | src/gicv3.rs:338-349 | A List request reaches exactly the listed cores below 16 of the named cluster |
| SgiRouting.AllReaches | src/gicv3.rs:332-335 | An All request reaches every core but the sender |
| SgiRouting.ValueServesRequest | src/gicv3.rs:328-350 | The written value asks for the interrupt and reaches a core exactly when the request is for it, for all senders and all affinities |
| SgiRouting.SgiReachesItsRedistributor | src/gicv3/registers.rs:140-157 | An SGI built from a redistributor's MPIDR reaches a core exactly when that core has the same affinity and level 0 is below 16 |
| SgiRouting.SgiReachesExactlyOne | src/gicv3.rs:328-357 | Among redistributors with distinct affinities exactly the addressed one is reached |
| RegisterBank.ModifyBit | src/gicv3.rs:34-50 | The words after a read-modify-write of one bit, through a plain, a set or a clear register |
| RegisterBank.SetBit | src/gicv3.rs:53-55 | The same, setting the bit |
| RegisterBank.ClearBit | src/gicv3.rs:58-60 | The same, clearing the bit |
| RegisterBank.ModifiedBits | src/gicv3.rs:34-50 | On a plain register, or setting through a set register, the read-modify-write changes the one bit and no other of the array |
| RegisterBank.ModifiedClearsWord | src/gicv3.rs:34-50 | Setting a bit through a clear register clears the whole word of that bit and nothing else |
| RegisterBank.WriteSpiMasks | src/gicv3.rs:165-173 | The strided loop writes the stride mask to each word from 1 up to the last implemented SPI, within the array and without a shift of 32 |
| RegisterBank.StrideMaskBits | src/gicv3.rs:167-171 | A stride mask has exactly the bits of identifiers below the limit, in full words and in the partial last word |
| RegisterBank.StridedBits | src/gicv3.rs:214-232 | Bit by bit, the loop acts on exactly the identifiers from 32 to the limit; on a plain register it also clears the rest of its last word |
| Banks.TriggeredBits | src/gicv3.rs:272-285 | Setting a trigger changes the high bit of one two-bit lane and no low bit |
| Banks.EntryBits | src/gicv3.rs:272-324 | The bit of the registers behind each part of an entry |
| Banks.GroupWrites | src/gicv3.rs:298-324 | After each of the two writes of a group change, the entry of the interrupt is as requested and all others are unchanged |
| Banks.Bank.Enable | src/gicv3.rs:196-199 | The bank afterwards, word for word and interrupt by interrupt: one interrupt enabled |
| Banks.Bank.Disable | src/gicv3.rs:200-202 | The same: the word of the interrupt disabled |
| Banks.Bank.SetPriority | src/gicv3.rs:257-262 | The same: one priority byte replaced |
| Banks.Bank.SetTrigger | src/gicv3.rs:277-285 | The same: one trigger replaced |
| Banks.Bank.SetGroup | src/gicv3.rs:299-311 | The bank between the two writes and after them |
| Banks.Bank.EnableSpis | src/gicv3.rs:214-232 | The bulk enable or disable of the distributor, interrupt by interrupt |
| Banks.Bank.GroupSpis | src/gicv3.rs:164-173 | The bulk group write of the distributor, interrupt by interrupt |
| Banks.Bank.EnablePrivate | src/gicv3.rs:234-239 | The bulk enable or disable of one frame |
| Banks.Bank.GroupPrivate | src/gicv3.rs:160-161 | The bulk group write of one frame |
| Banks.EnabledFirstEntries | src/gicv3.rs:233-240 | All 32 interrupts of the frame are enabled or disabled, nothing else changes |
| Banks.GroupedFirstEntries | src/gicv3.rs:158-163 | The group bits of all 32 interrupts of the frame are set, nothing else changes |
| RegisterFile.PrivateStep | src/gicv3.rs:195-324 | A change to one redistributor frame is the effect of the call on the whole map: no other core and no SPI is affected |
| RegisterFile.SharedStep | src/gicv3.rs:195-324 | A change to the distributor is the effect of the call on the whole map |
| RegisterFile.EnableAllStep | src/gicv3.rs:211-241 | The bulk changes of distributor and frames are the effect of the call on the whole map |
| RegisterFile.SetupStep | src/gicv3.rs:157-173 | The same for the group writes of a setup |
| GicV3Driver.GicV3.constructor | src/gicv3.rs:98-121 | On hardware as its caller promises it, the driver is valid, its footprints are exactly the registers it was given, its redistributors fit the address space at the stride of the first one, 0x4_0000 for a GICv4 with bit 1 of that type register set and 0x2_0000 otherwise, and pending writes show in bits 31 and 3 |
| GicV3Driver.GicV3.ConfigReadsRegisters | src/gicv3.rs:195-324 | The map is what the bits of the registers say: for a private interrupt those of the frame of its core, for others those of the distributor |
| GicV3Driver.GicV3.EnableInterrupt | src/gicv3.rs:195-208 | The map afterwards; only the bank of the interrupt is written |
| GicV3Driver.GicV3.SetInterruptPriority | src/gicv3.rs:255-269 | The map afterwards; only the bank of the interrupt is written |
| GicV3Driver.GicV3.SetTrigger | src/gicv3.rs:272-295 | The map afterwards; only the bank of the interrupt is written |
| GicV3Driver.GicV3.SetGroup | src/gicv3.rs:298-324 | The map afterwards; only the bank of the interrupt is written |
| GicV3Driver.GicV3.EnableAllInterrupts | src/gicv3.rs:211-241 | The map afterwards: implemented interrupts of every core and of the distributor, and no others |
| GicV3Driver.GicV3.EnableOnEveryCore | src/gicv3.rs:233-240 | The loop over the redistributors reaches each frame once |
| GicV3Driver.GicV3.GroupOnEveryCore | src/gicv3.rs:157-163 | The loop over the redistributors reaches each frame once |
| GicV3Driver.GicV3.GroupAll | src/gicv3.rs:157-173 | The map after the group writes of a setup |
| GicV3Driver.GicV3.SetupControl | src/gicv3.rs:152-155 | The core woken, and affinity routing and non-secure group 1 enabled in the control register, before any group write |
| GicV3Driver.GicV3.SetupBanks | src/gicv3.rs:157-173 | The group writes of a setup change the map as the call does and leave the control, wake and system registers unchanged |
| GicV3Driver.GicV3.InitCpu | src/gicv3.rs:134-145 | System register access is enabled, then the core is woken, then the CPU interface is configured; the core is awake for good unless it was on its way to sleep and taken for awake, and other cores see only their own hardware |
| GicV3Driver.GicV3.Setup | src/gicv3.rs:151-177 | The map, the control register with flags 1 and 4 enabled, the wake registers from every start state, and the three system register writes in order, with their values; every implemented interrupt is in non-secure group 1 |
| GicV3Driver.WokenForGood | src/gicv3.rs:138-139 | A core that was woken stays awake exactly when its register is settled; it can be left otherwise exactly from a register on its way to sleep, which the next hardware step takes to sleep |
| GicV3Driver.GicV3.SetupTwice | src/gicv3.rs:151-177 | A second setup, of any core, leaves the map and the control register as the first one left them, and the wake registers too when it names the same core and no handshake is under way |
| GicV3Driver.GicV3.GicdBarrier | src/gicv3.rs:454-459 | Polling bit 31 returns, and only with no write in progress |
| GicV3Driver.GicV3.GicdSetControl | src/gicv3.rs:475-477 | Union with the writable flags; returns with no write in progress |
| GicV3Driver.GicV3.GicdClearControl | src/gicv3.rs:470-472 | Difference with the writable flags; returns with no write in progress |
| GicV3Driver.GicV3.GicrBarrier | src/gicv3.rs:480-483 | Polling bit 3 returns, and only with no write in progress on that redistributor |
| GicV3Driver.GicV3.GicrPowerOn | src/gicv3.rs:543-549 | On the listed models the power-on sequence on the core's own register: when it returns, and every write it makes, each of zero; on others nothing is read or written |
| GicV3Driver.GicV3.GicrPowerOff | src/gicv3.rs:552-558 | On the listed models the power-off sequence on the core's own register: when it returns, and the writes it makes, each of RDPD; on others nothing is read or written |
| GicV3Driver.GicV3.GicrSgiPtr | src/gicv3.rs:424-433 | The address is base plus core times stride; its window lies among those of the redistributors, in the address space, and apart from the windows of all other cores |
| GicV3Driver.GicV3.SendSgi | src/gicv3.rs:328-357 | One write, to ICC_SGI0R, ICC_SGI1R or ICC_ASGI1R as the group asks, of a value that asks for the interrupt and reaches exactly the cores of the request, whoever sends it |
| GicV3Driver.GicV3.Perform | src/gicv3.rs:151-324 | Each accepted call changes the map by its effect; only a setup changes the control, wake and system registers |
| GicV3Driver.GicV3.RunCalls | src/gicv3.rs:151-324 | For every sequence of accepted calls the registers simulate the map of entries and, decoded, the map from interrupts to enabled, group, trigger and priority; the setups of the run decide the control register, the system register writes and which cores are awake |
| GicV3Driver.RunsInFull | src/gicv3.rs:134-177 | After any run with a setup in it, in numbers: both control flags are set, the last values of ICC_SRE, ICC_CTLR and ICC_IGRPEN1 are 1, 0 and 1, and the cores that setups name are awake; without one nothing outside the banks has changed |
| Configuration.RunIsPointwise | src/gicv3.rs:151-324 | Runs act on every interrupt on its own and keep the set of interrupts |
| ConfigurationRuns.PerInterruptInFull | src/gicv3.rs:195-324 | An enable, priority, trigger or group change replaces one entry of the whole map, and which bits of it |
| ConfigurationRuns.DisableInFull | src/gicv3.rs:200-206 | A disable on the whole map: the interrupts of one group of 32 of one core, or of the distributor |
| ConfigurationRuns.EnableAllInFull | src/gicv3.rs:211-241 | A bulk enable or disable on the whole map, from the raw type register |
| ConfigurationRuns.SetupInFull | src/gicv3.rs:157-173 | A setup on the whole map, from the raw type register: the group bits it sets, and those of the special identifiers that it clears with 31 lines |
| ConfigurationRuns.UnnamedUnchanged | src/gicv3.rs:195-324 | Over every run, an entry that no call names keeps its value |
| ConfigurationRuns.OtherCoresUnnamed | src/gicv3.rs:424-451 | A per-interrupt call for one core names no private interrupt of another |
| ConfigurationRuns.DecodedStep | src/gicv3.rs:151-324 | Decoding an interrupt's registers commutes with every call |
| ConfigurationRuns.DecodedRun | src/gicv3.rs:151-324 | Over every run the decoded registers simulate the map from interrupts to enabled, group, trigger and priority |
| ConfigurationRuns.DecodedRunOfMap | src/gicv3.rs:151-324 | The same for all interrupts of the map at once |
| ConfigurationRuns.SpecialIdsNeedModifier | src/gicv3.rs:166-172 | For identifiers 1020 to 1023 a setup that fills the last word gives a group that the decoded setting does not determine |
| ConfigurationRuns.SetupGroups | src/gicv3.rs:157-173 | After a setup every implemented interrupt is in non-secure group 1, whatever the registers held, and setups change nothing but groups |
| ConfigurationRuns.SetupIdempotent | src/gicv3.rs:151-177 | A second setup, of any core, changes no entry |
| ConfigurationRuns.SetupIsEveryGroup | src/gicv3.rs:157-173 | Decoded, a setup does to every interrupt what moving each implemented interrupt to non-secure group 1 does, one by one, in any order and with repetitions |
| ConfigurationRuns.SetupLeavesModifier | src/gicv3.rs:157-173 | The registers after both are equal exactly where no modifier bit is stale, and at the special identifiers where there is no group bit to clear |
| ConfigurationRuns.EnableOrderIsGroupOrder | src/lib.rs:197-210 | Every order of enables that misses no implemented interrupt is such an order of group changes, so the plain enumeration is one |
| ConfigurationRuns.DisableAsDocumented | src/gicv3.rs:191-208 | Disabling one interrupt changes just that one exactly when no other interrupt of its word is enabled |
| ConfigurationRuns.DisableExample | src/gicv3.rs:200-206 | A failing input: enable 40, enable 41, disable 40 leaves 41 disabled |
| ConfigurationRuns.EnableAllIsEveryEnable | src/gicv3.rs:195-241 | Enabling all at once is enabling every private interrupt of every core and every implemented SPI one by one, in any order and with repetitions |
| ConfigurationRuns.EveryInterruptEnablesAll | src/lib.rs:197-210 | The plain enumeration, core by core and then the SPIs, is such an order |
| ConfigurationRuns.DisableAllAgainstEveryDisable | src/gicv3.rs:195-241 | Disabling one by one differs from disabling all at once exactly at enabled special identifiers in the last, partial word |
| ConfigurationRuns.GroupReached | src/gicv3.rs:298-324 | The two group bits decode to the requested group, and a move to non-secure group 1 is complete after its first write |
| ConfigurationRuns.ThirdGroupExactly | src/gicv3.rs:301-310 | The two cases, and only those, in which an interrupt is in a third group between the two writes |
| ConfigurationRuns.LastEnable | src/gicv3.rs:195-241 | Over every run an interrupt is enabled as the last call that names it left it, a disable naming its whole word |
| ConfigurationRuns.LastGroup | src/gicv3.rs:298-324 | Over every run an interrupt is in the group of the last group change or setup that names it |
| ConfigurationRuns.LastPriority | src/gicv3.rs:255-269 | Over every run a priority reads back as last set |
| ConfigurationRuns.LastTrigger | src/gicv3.rs:272-295 | Over every run a trigger reads back as last set |
| ConfigurationRuns.LowBitNeverChanges | src/gicv3.rs:272-295 | Over every run the low bit of every configuration lane keeps its value |
| ConfigurationRuns.DistinctCallsCommute | src/gicv3.rs:195-324 | Calls on different interrupts commute, except an enable and a disable in one word, which never do |
| WakerProtocol.BitsRoundTrip | src/gicv3/registers.rs:433-438 | The flags and the remaining bits determine the register value |
| WakerProtocol.FlagOperations | src/gicv3/registers.rs:433-438 | The driver's word operations are the flag operations of the model |
| WakerProtocol.FlagBits | src/gicv3/registers.rs:433-438 | The two flags are bits 1 and 2 of the register |
| WakerProtocol.AwakeIsStable | src/gicv3.rs:563-583 | No hardware step leaves the state a successful wake ends in, a settled register being one that no step changes; a core on its way to sleep reads as awake and the next step puts it to sleep |
| WakerProtocol.Wakers.MarkCoreAwake | src/gicv3.rs:563-583 | Success completes the handshake with one disciplined write; AlreadyAwake comes with no write, and with a core awake for good unless it was falling asleep; other cores see only their own hardware |
| WakerProtocol.Wakers.MarkCoreAsleep | src/gicv3.rs:588-608 | The same for sleeping, the exception being a core that was waking up |
| WakerProtocol.Wakers.RunCalls | src/gicv3.rs:563-608 | Over every run on any cores, both flags are equal at every call boundary, each result tells the state the core was in, and every write clears ProcessorSleep only while ChildrenAsleep is set and sets it only while it is clear |
| WakerProtocol.FailuresKeepState | src/gicv3.rs:563-608 | A core stays as its last successful call left it |
| WakerProtocol.SuccessesAlternate | src/gicv3.rs:563-608 | Successful wakes and sleeps of one core strictly alternate |
| ControlBarrier.FlagOperators | src/gicv3.rs:469-477 | Union and difference of flags are the word operations |
| ControlBarrier.FlagBits | src/gicv3/registers.rs:22-53 | The polled bits and the flags of setup as bits of a register word |
| ControlBarrier.SetupFlags | src/gicv3.rs:155 | The flags that setup writes are the word 0x12 |
| ControlBarrier.ControlRegister.Barrier | src/gicv3.rs:454-459 | Where the polled bit is the one in which the hardware shows a pending write, returns after finitely many reads, and only with no write in progress |
| ControlBarrier.ControlRegister.ModifyControl | src/gicv3.rs:461-467 | The register afterwards, for any transformation, including one that is shown the pending bit of an earlier write |
| ControlBarrier.ControlRegister.SetControl | src/gicv3.rs:475-477 | Named writable flags are set, all else is unchanged |
| ControlBarrier.ControlRegister.ClearControl | src/gicv3.rs:470-472 | Named writable flags are cleared, all else is unchanged |
| ControlBarrier.ControlRegister.RunControl | src/gicv3.rs:461-477 | A run of calls leaves the fold of union and difference, with no write in progress |
| ControlBarrier.UnnamedFlagKeeps | src/gicv3.rs:461-477 | A read-only flag, or one no call names, keeps its first value |
| ControlBarrier.LastNamingDecides | src/gicv3.rs:461-477 | The last call naming a writable flag decides it |
| PowerSequence.WrittenFlags | src/gicv3/registers.rs:76-103 | The two values the sequences write |
| PowerSequence.InTransitBits | src/gicv3/registers.rs:76-103 | A word is in transit exactly when its bits 2 and 3 differ, and RDPD is its bit 0 |
| PowerSequence.PowerRegister.WaitUntilGroupNotInTransit | src/gicv3.rs:485-494 | Returns at once from a sample whose bits RDGPD and RDGPO are equal, and not at all from another |
| PowerSequence.PowerRegister.PowerOn | src/gicv3.rs:504-521 | From any instant and over all hardware behaviours, returns exactly when some round samples a settled group and reads RDPD as zero after only refused rounds; every write is of zero and follows a settled sample |
| PowerSequence.PowerRegister.PowerOff | src/gicv3.rs:523-540 | From any instant and over all hardware behaviours, when it returns, and that it writes RDPD once exactly if its first sample is settled |
| PowerSequence.ReturnIsUnique | src/gicv3.rs:504-521 | There is one round in which power-on can return |
| PowerSequence.OnReturnsSpelledOut | src/gicv3.rs:504-521 | When power-on returns, access by access: every third value is a settled sample, every check but the last finds RDPD set, and the last finds it clear |
| PowerSequence.PowerOnTerminates | src/gicv3.rs:504-521 | With settled samples and at most r refusals, power-on returns within r + 1 rounds |
| PowerSequence.PowerOnStuck | src/gicv3.rs:485-494 | After an in-transit sample no later hardware behaviour lets power-on return |
| PowerSequence.StaleSampleExample | src/gicv3.rs:485-494 | A failing input: power-on never returns after one in-transit sample with nothing but settled, powered-up values behind it, and from the second value on it returns |
| PowerSequence.PowerOffDecided | src/gicv3.rs:523-540 | Power-off returns exactly when each sample it takes is settled, whatever comes later |
| Layout.WindowsDisjoint | src/gicv3.rs:73-95 | At the stride of the hardware, in numbers, the windows of different cores share no address |
| Layout.WindowSizes | src/gicv3.rs:73-95 | The stride in numbers, from the raw type register of the first redistributor |
| Layout.RegistersDisjoint | src/gicv3/registers.rs:440-565 | No two per-core registers the driver uses share a byte |
| Layout.StructsFillFrames | src/gicv3/registers.rs:440-565 | The members of both structs lie one after the other, aligned and without padding, and fill a frame of 64 KiB |
| Layout.OffsetsFollowStructs | src/gicv3/registers.rs:440-565 | The offset that the members of the structs give each register is the one the architecture has |
| Layout.OtherWindowsUnchanged | src/gicv3.rs:424-451 | A write to a register of one core leaves the windows of all others unchanged, byte for byte |
| Layout.OtherWindowsUnchangedByAll | src/gicv3.rs:424-451 | Any sequence of register writes of one core leaves the windows of all others unchanged, byte for byte |
| GicV2Driver.GicV2.EnableInterrupt | src/gicv2.rs:60-79 | The lines afterwards, and success exactly when disabling or when the interrupt is implemented |
| GicV2Driver.GicV2.EnableAllInterrupts | src/gicv2.rs:82-96 | The lines afterwards: all implemented interrupts enabled, or all disabled |
| GicV2Driver.GicV2.SetInterruptPriority | src/gicv2.rs:109-116 | The lines afterwards: the priority set and the other three of its word zero |
| GicV2Driver.GicV2.SetTrigger | src/gicv2.rs:119-132 | The lines afterwards: one trigger changed |
| GicV2Driver.GicV2.Setup | src/gicv2.rs:49-57 | All interrupts in group 1, and the three control values: 0x2 to the distributor, 1 and 0xff to the CPU interface |
| GicV2Driver.GicV2.SendSgi | src/gicv2.rs:135-156 | One write, of a value that asks for the interrupt and is forwarded to exactly the CPU interfaces and groups of the request, in every security state and whoever sends it |
| GicV2Driver.GicV2.RunCalls | src/gicv2.rs:49-132 | For every sequence of accepted calls the registers simulate the lines |
| GicV2Lines.CallsInFull | src/gicv2.rs:49-132 | What each call does to the whole of the lines, where only implemented interrupts are enabled |
| GicV2Driver.GicV2.LinesReadRegisters | src/gicv2.rs:60-132 | The lines are what the bits of the registers say |
| GicV2Driver.EnableStep | src/gicv2.rs:60-79 | A set-enable write of one bit enables the interrupt exactly when it is implemented, and nothing else changes |
| GicV2Driver.DisableStep | src/gicv2.rs:60-79 | A clear-enable write of one bit disables that interrupt and nothing else |
| GicV2Driver.EnableAllStep | src/gicv2.rs:82-96 | The 32 writes of ones, interrupt by interrupt |
| GicV2Driver.PriorityStep | src/gicv2.rs:109-116 | The word write, interrupt by interrupt |
| GicV2Driver.TriggerStep | src/gicv2.rs:119-132 | The read-modify-write of the configuration word, interrupt by interrupt |
| GicV2Sgi.EncodingRoundTrip | src/gicv2.rs:138-153 | Decoding the value under the layout of GICD_SGIR gives back the filter, the target list, the number, and NSATT, which List sets and All does not |
| GicV2Sgi.ListReaches | src/gicv2.rs:140-153 | Which CPU interfaces the value of a List request names under each filter |
| GicV2Sgi.ValueBits | src/gicv2.rs:138-153 | Where each field of the request lies in the written word, and that all else is zero |
| GicV2Sgi.ValueServesRequest | src/gicv2.rs:135-156 | The written value asks for the interrupt and is forwarded to a CPU interface and group exactly when the request is for them, for every sender and security state |
| GicV2Sgi.AllReachesSender | src/gicv2.rs:139 | For every sender the set an All request reaches is not the documented one; the filter for all others reaches the documented set |
| GicV2Runs.EnablesAreSetAlgebra | src/gicv2.rs:60-96 | Over every run and for every set of implemented interrupts, the enabled set is the fold of union, difference and intersection |
| GicV2Runs.PriorityKept | src/gicv2.rs:109-116 | Over every run, a priority whose word is not written keeps its value |
| GicV2Runs.LastWriteOwnsWord | src/gicv2.rs:109-116 | Over every run, the interrupt written last in a word reads back its priority and the others of the word read zero |
| GicV2Runs.OneLanePerWord | src/gicv2.rs:109-116 | From zeroed registers each word has at most one non-zero priority, that of the interrupt written last |
| GicV2Runs.PriorityAsDocumented | src/gicv2.rs:105-116 | Setting a priority changes just that one exactly when the other three of its word are zero |
| GicV2Runs.PriorityExample | src/gicv2.rs:109-116 | A failing input: a second priority in a word clears the first |
| GicV2Runs.LowBitNeverChanges | src/gicv2.rs:119-132 | Over every run the low bit of every configuration lane keeps its value |
| GicV2Runs.SetupHidesSecureAll | src/gicv2.rs:49-57 | After a setup a secure All request reaches no CPU interface, and a List request reaches its targets |
| Comparison.EnablesAgree | src/gicv2.rs:64-74 | Enabling an implemented SPI keeps both drivers in agreement |
| Comparison.DisablesAgree | src/gicv3.rs:196-207 | Both drivers disable the named SPI, and agree afterwards exactly when no other interrupt of its group of 32 was enabled |
| Comparison.EnablesCompared | src/gicv3.rs:195-208 | Over such a run an SPI is enabled in the GICv3 exactly when it is in the GICv2 and no other of its group of 32 was disabled since the last call on it |
| Comparison.EnabledSetsCompared | src/gicv2.rs:60-79 | After the same enables and disables of implemented SPIs the SPIs enabled in the GICv3 are among those of the GICv2, and the sets are equal exactly when each of the latter is undisturbed |
| Comparison.TriggersAgree | src/gicv2.rs:119-132 | From equal triggers any sequence of trigger calls on SPIs takes both drivers to equal triggers |
| Comparison.PrioritiesCompared | src/gicv3.rs:255-269 | After the same priority calls the GICv2 agrees with the GICv3 for the interrupt written last in each word and reads zero for the others |
| Example.SingleCore | src/lib.rs:24-29 | Hardware as the constructor asks for can be built, and every register the driver then uses is one of its own |
| Example.SetUpAndSend | src/lib.rs:28-47 | The calls of the documented example leave the interrupt enabled in non-secure group 1 with its priority, the core woken, both control flags set and group 1 enabled at the CPU interface, and end with a write that sends the interrupt to the core itself |

## Left out

- The system register instructions, for both architectures: system register writes are a trace.
- Acknowledging, querying pending and ending interrupts, and the priority mask: single register accesses.
- Access through the raw register addresses that the drivers hand out: runs consist of driver calls only.
- Panics: calls that panic are excluded by preconditions, and a run ends before one.
- Unimplemented GICv3 interrupts: their bits are stored like any other, whereas hardware may ignore writes to them.
- The extended PPI and SPI ranges of the registers, which no modelled call writes.
- GICv2 banking of the first 32 interrupts by the accessing core: the model is the view of one core.
- Bits of GICR_WAKER other than the two flags: the hardware is taken not to change them by itself.
- Hardware that never completes a waker or control register request: the countdowns are finite but arbitrary.
- Memory ordering and volatile access: register accesses happen in program order.
- The other fields of the type registers, `num_lpis` and `max_espi`: one expression each.
- Debug output of flag types, error texts and the interrupt masking functions.
- GicV3Driver.GicV3.SetupTwice: says of the wake registers only what each of the two setups says, when some core is in the middle of a handshake.
