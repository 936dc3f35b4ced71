# Verification of boot-loader and driver algorithms

This project models self-contained algorithms of the U-Boot tree in
`common/package/boot/uboot-ipq40xx/src` and of two kernel packages, and proves
what they promise for all inputs and all runs.

* **MTD partition table** (`MtdTable`, `MtdRoundTrip`, `MtdSession`, `MtdRuns`,
  `MtdTracking`, `MtdSpread`, `MtdPlacement`, `MtdCalm`, `MtdLimit`,
  `MtdGrammar`, `MtdLookup`, `MtdEffects`, `MtdExample`, `MtdCommands`).
  `MtdTable` holds the grammar of `mtdparts=` as a parser and a printer,
  `MtdSession` the state behind the commands and what each does to it. The
  theorems say exactly which tables survive printing and parsing, that the text
  cache agrees with the table over every run of commands, that the current
  partition is followed through inserts and deletes, and what bad-block
  spreading guarantees after any run; `MtdGrammar` says what any accepted text
  means, `MtdLookup` and `MtdEffects` what the commands do to the partition they
  name. `MtdCommands` has the loops and the
  mutable state of the C code, proved against those functions.
* **Kermit receiver** (`Kermit`, `KermitDelivery`, `KermitLine`,
  `KermitDamage`, `KermitReceiver`). Packets, checkpoint and rollback, unquoting;
  exactly-once delivery over every run of good and bad copies, down to the bytes
  on the line; which damage to a packet is noticed.
* **Log ring buffer** (`LogBuffer`, `LogCommands`). Two header layouts over one
  circular buffer refine one stream of tagged lines.
* **Flash ranges** (`FlashRange`, `FlashCommands`), **OneNAND** (`OneNand`),
  **paged EEPROM** (`Eeprom`): interval selection over banks, skipping bad
  blocks across calls, transfers cut at pages.
* **Assembler operands** (`Bits`, `Bedbug`), **floppy reads** (`Floppy`),
  **device-tree values** (`FdtProp`, `FdtCommands`), **environment blob**
  (`Environment`), **key debouncing** (`Debounce`), **R2EC checksum** (`Crc8`).
* `Numerals` is `simple_strtoul` and the number formats of printf; `Machine`,
  `Arith`, `Sequences` and `Option` are shared.

Pure parts of the code are functions and lemmas. Code that updates state is a
class or a method with loops; its `ensures` ties the new state to a function,
and the lemmas are about that function. `unsigned long` is 32 bits and wraps;
`u8` and `u16` counters wrap where the code lets them.

## What the code needs

The model follows the code, also where its comments promise more. These
conditions come out of the proofs.

* Two partitions may share a non-zero offset, but such a table comes back from
  its own text only if the shared offsets read the same in both directions
  (`MtdRoundTrip.RoundTrip`, with a run in `MtdExample.SharedOffsetsSwap`), and
  deleting the later of the two while the earlier one is current loses the
  current partition (`MtdRuns.DeleteTracks`).
* `generate_mtdparts` does not charge the nine characters `mtdparts=`, so texts
  of 1024 to 1032 characters are saved and then refused by `mtdparts_init`
  (`MtdLimit.SavedAcceptedIff`, with a run in `MtdLimit.SavedThenRefused`).
* In Kermit, an error before the sequence byte takes back a packet that was
  applied, unless it had nothing to add (`KermitDelivery.EarlyErrorIff`); what
  arrives in any run is what `KermitDelivery.EveryRun` says, and everything
  arrives exactly under the condition of `KermitDelivery.ExactlyOnceIff`.
* Quote characters 63 to 95 are legal in the protocol but not undone by
  `ktrans` (`Kermit.UnquoteInvertsIff`).
* A flash bank at the top of the address space followed in the table by one at
  address 0 makes the search wrap (`FlashRange.RunsIffNoWrap`).
* OneNAND writes pass over a block that refuses them, reads do not, so data
  comes back only where both skip the same blocks (`OneNand.ReadBackIff`). A
  file written right behind another one on a chip with a bad block is moved on by
  the static offset, and reading from its offset gives other data
  (`OneNand.ChunkedReadBackIff`, `OneNand.SecondFileShifted`).
* `logbuff_reset` keeps the message level, so a log reset in the middle of a line
  begins without a tag (`LogBuffer.LogRefinement`, `LogBuffer.ResetInMidLine`).
* A device-tree value printed as strings and beginning with `<` or `[` never
  comes back (`FdtProp.PropRoundTrip`).
* EEPROM pages above 256 bytes are crossed unless bytes go singly
  (`Eeprom.FlatIff`).
* Enumerating the environment repeats entries when names repeat, and yields the
  position of the final zero byte for an empty environment
  (`Environment.EnumeratesIff`, `Environment.ApiEnvEnum`).
* A response whose last byte reads zero is accepted whatever its checksum
  (`Crc8.DamageRefused`).

## Model

| member | source | states |
|---|---|---|
| `Numerals.SimpleStrToUL` | common/package/boot/uboot-ipq40xx/src/lib/vsprintf.c:43-68 | the pointer loop with its base prefixes reads the same value and rest as the recursive definition, with 32-bit wrap-around |
| `Numerals.ScanLoop` | common/package/boot/uboot-ipq40xx/src/lib/vsprintf.c:60-64 | the digit loop equals the recursive scan |
| `Numerals.ScanFormat` | common/package/boot/uboot-ipq40xx/src/lib/vsprintf.c:43-68 | digits printed in base 10 or 16 are scanned back to the number, and the scan stops at the first other character |
| `Numerals.StrToULDecimal` | common/package/boot/uboot-ipq40xx/src/lib/vsprintf.c:43-68 | decimal text is read back with base 0 and base 10: the zero that would select octal is printed only for 0 |
| `Numerals.ScanPadded` | common/package/boot/uboot-ipq40xx/src/lib/vsprintf.c:43-68 | digits padded with zeros, as in generated partition names, are scanned back to the number |
| `Numerals.HexPrefix` | common/package/boot/uboot-ipq40xx/src/lib/vsprintf.c:46-57 | 0x before a hexadecimal digit selects base 16 whatever base is asked for |
| `Numerals.OctalPrefix` | common/package/boot/uboot-ipq40xx/src/lib/vsprintf.c:46-57 | a leading zero without x selects base 8 when no base is asked for |
| `Numerals.CaseOfDigits` | common/package/boot/uboot-ipq40xx/src/lib/vsprintf.c:60-64 | hexadecimal digits count the same in either case |
| `MtdRoundTrip.MemSizeRoundTrip` | common/package/boot/uboot-ipq40xx/src/common/cmd_mtdparts.c:177-224 | memsize_parse undoes memsize_format for every 32-bit size, whatever may follow it in a partition |
| `MtdRoundTrip.PartParseText` | common/package/boot/uboot-ipq40xx/src/common/cmd_mtdparts.c:596-704 | part_parse reads a printed partition back exactly when its size is accepted there; the offset comes back as "not given" where it was left out |
| `MtdRoundTrip.ParsePartsText` | common/package/boot/uboot-ipq40xx/src/common/cmd_mtdparts.c:882-917 | the partition loop inverts the printing loop for every validated list, exactly when all sizes are acceptable |
| `MtdRoundTrip.SortInsertAllMirrors` | common/package/boot/uboot-ipq40xx/src/common/cmd_mtdparts.c:511-565 | moving a sorted list to a new device one partition at a time reverses each run of equal offsets and keeps the rest; it fails exactly for a second partition at 0 |
| `MtdRoundTrip.InsertAtZero` | common/package/boot/uboot-ipq40xx/src/common/cmd_mtdparts.c:539-543 | part_sort_add refuses exactly the second partition at offset 0 |
| `MtdRoundTrip.DeviceParseText` | common/package/boot/uboot-ipq40xx/src/common/cmd_mtdparts.c:835-968 | device_parse of a printed device gives that device with its list rebuilt, or fails exactly when the rebuilding does |
| `MtdRoundTrip.ParseDevicesText` | common/package/boot/uboot-ipq40xx/src/common/cmd_mtdparts.c:1537-1584 | the device loop of parse_mtdparts rebuilds every printed device in order |
| `MtdRoundTrip.RoundTrip` | common/package/boot/uboot-ipq40xx/src/common/cmd_mtdparts.c:1084-1201 | parsing the text of generate_mtdparts gives back the same devices, sizes, offsets, user names and ro flags, if and only if all sizes are at least 4096 and not "the rest" before the end, at most one partition starts at 0, and partitions sharing an offset read the same in both directions; partitions long enough to be parsed must be valid, shorter ones need not |
| `MtdRoundTrip.DistinctPrintable` | common/package/boot/uboot-ipq40xx/src/common/cmd_mtdparts.c:1084-1201 | with strictly increasing offsets only the sizes decide whether a list survives printing and parsing |
| `MtdRoundTrip.ValidateName` | common/package/boot/uboot-ipq40xx/src/common/cmd_mtdparts.c:410-437 | an accepted partition ends below 4 GB, and its name plays no part in the test |
| `MtdGrammar.SuffixedSize` | common/package/boot/uboot-ipq40xx/src/common/cmd_mtdparts.c:177-197 | a number with suffix k, m or g, in either case, is that many units with 32-bit wrap-around |
| `MtdGrammar.FillsDevice` | common/package/boot/uboot-ipq40xx/src/common/cmd_mtdparts.c:410-437 | a partition that takes all the rest is accepted if and only if its offset is below the device size and both its ends are aligned; it then ends exactly at the device end |
| `MtdGrammar.FitsDevice` | common/package/boot/uboot-ipq40xx/src/common/cmd_mtdparts.c:410-437 | a partition of a given size is accepted unchanged if and only if it is not empty, ends inside the device and is aligned |
| `MtdGrammar.BoundaryIff` | common/package/boot/uboot-ipq40xx/src/common/cmd_mtdparts.c:359-386 | the walk over regions and blocks finds an offset if and only if it lies on a block boundary of a region |
| `MtdGrammar.AlignedIff` | common/package/boot/uboot-ipq40xx/src/common/cmd_mtdparts.c:325-397 | a partition is aligned if and only if both ends lie on block boundaries; on a chip with regions the end of the last region also counts as an end |
| `MtdGrammar.ParsePartsIff` | common/package/boot/uboot-ipq40xx/src/common/cmd_mtdparts.c:882-917 | the partition loop yields a list if and only if the definitions of the text resolve to it: each partition at its own offset or right behind its predecessor, of its own size or up to the device end, inside the device and aligned |
| `MtdGrammar.FindIdIff` | common/package/boot/uboot-ipq40xx/src/common/cmd_mtdparts.c:1013-1034 | an id is found if and only if one has the name, and then the first one |
| `MtdGrammar.SortInsertAllSame` | common/package/boot/uboot-ipq40xx/src/common/cmd_mtdparts.c:955-962 | moving the partitions to the device loses and doubles none |
| `MtdGrammar.TableResolves` | common/package/boot/uboot-ipq40xx/src/common/cmd_mtdparts.c:1537-1584 | every accepted text gives, device by device, the first id of that name and exactly the partitions its definitions resolve to |
| `MtdGrammar.FillReachesEnd` | common/package/boot/uboot-ipq40xx/src/common/cmd_mtdparts.c:410-437 | in every accepted text a `-` partition, with its name and flag, ends at the end of its device |
| `MtdGrammar.FillText` | common/package/boot/uboot-ipq40xx/src/common/cmd_mtdparts.c:611-614 | a `-` definition with any offset, name and flag is parsed as one that takes all the rest, and only as the last of its device |
| `MtdGrammar.SizedText` | common/package/boot/uboot-ipq40xx/src/common/cmd_mtdparts.c:596-704 | a definition of a suffixed size with any offset, name and flag is parsed into those fields, if and only if the size is at least 4096 and not the marker of "the rest" with a comma behind it |
| `MtdGrammar.AutoNameTells` | common/package/boot/uboot-ipq40xx/src/common/cmd_mtdparts.c:690-692 | size and offset can be read back from a generated name in base 0 |
| `MtdRuns.ParseTableOk` | common/package/boot/uboot-ipq40xx/src/common/cmd_mtdparts.c:1537-1584 | every parsed table has distinct known devices with chips, non-empty, sorted and validated lists |
| `MtdRuns.SortInsertOk` | common/package/boot/uboot-ipq40xx/src/common/cmd_mtdparts.c:511-565 | sorted insertion adds exactly one partition and keeps the list sorted |
| `MtdRuns.ReparseInv` | common/package/boot/uboot-ipq40xx/src/common/cmd_mtdparts.c:1785-1801 | a reparse leaves a well-formed table that is what the text says, or none |
| `MtdRuns.StepInv` | common/package/boot/uboot-ipq40xx/src/common/cmd_mtdparts.c:1929-2043 | every command keeps the table well formed and the cached text either parsed into it or printed from it; without spreading it also keeps lists sorted and validated |
| `MtdRuns.RunInv` | common/package/boot/uboot-ipq40xx/src/common/cmd_mtdparts.c:1706-2043 | the same over every run of commands |
| `MtdRuns.CacheAgreement` | common/package/boot/uboot-ipq40xx/src/common/cmd_mtdparts.c:1785-1801 | after every run, a non-empty last_parts reproduces the table in memory when the table is sorted, validated and printable |
| `MtdRuns.CacheAgreementIff` | common/package/boot/uboot-ipq40xx/src/common/cmd_mtdparts.c:1211-1223 | in runs without spreading, a cached text that was printed reproduces the table if and only if the table is printable |
| `MtdPlacement.CacheAgreementPlaced` | common/package/boot/uboot-ipq40xx/src/common/cmd_mtdparts.c:1785-1801 | on chips of whole blocks, after every run with spreading included, a cached text reproduces a printable table, and a printed text only then |
| `MtdExample.SharedOffsetsSwap` | common/package/boot/uboot-ipq40xx/src/common/cmd_mtdparts.c:545-546 | a run with two partitions at one offset after which parsing the cached text swaps them, although mtdparts_init would skip the parse |
| `MtdRuns.SkipIsSound` | common/package/boot/uboot-ipq40xx/src/common/cmd_mtdparts.c:1785-1801 | when mtdparts_init skips the reparse of a printable table, parsing would have succeeded and given that table |
| `MtdRuns.PrintedReproduces` | common/package/boot/uboot-ipq40xx/src/common/cmd_mtdparts.c:1211-1223 | a printed text agrees with its sorted table exactly when the table is printable |
| `MtdRuns.InsertTracks` | common/package/boot/uboot-ipq40xx/src/common/cmd_mtdparts.c:511-565 | after an insertion the current number still names the current partition, if and only if it need not pass 255 and the partition at the insertion point does not start behind the current one; in a sorted list only 255 is left |
| `MtdRuns.DeleteTracks` | common/package/boot/uboot-ipq40xx/src/common/cmd_mtdparts.c:446-483 | after a deletion the current number still names the current partition, if and only if the two offsets are ordered like the positions; in a sorted list, if and only if the deleted one is not a later one at the same offset |
| `MtdRuns.DeleteTracksFails` | common/package/boot/uboot-ipq40xx/src/common/cmd_mtdparts.c:466-468 | two partitions at one offset, the first current: deleting the second sets the current number to 255 |
| `MtdTracking.MtddevnumIsIndex` | common/package/boot/uboot-ipq40xx/src/common/cmd_mtdparts.c:231-264 | mtddevnum is the index of the current partition among all partitions of all devices, and mtddevname its name |
| `MtdTracking.PartDelTracks` | common/package/boot/uboot-ipq40xx/src/common/cmd_mtdparts.c:446-483 | unless the offsets contradict the positions, part_del keeps the same partition current, or number 0 when the current one was deleted, and the variables in step |
| `MtdTracking.PartAddTracks` | common/package/boot/uboot-ipq40xx/src/common/cmd_mtdparts.c:574-585 | part_add leaves a valid current partition and the variables in step, and the same partition unless the insertion is one that MtdRuns.InsertTracks excludes |
| `MtdTracking.DeviceDelTracks` | common/package/boot/uboot-ipq40xx/src/common/cmd_mtdparts.c:756-778 | device_del keeps the current partition of another device; when the current device goes, the first partition of the first device is current |
| `MtdTracking.DeviceAddTracks` | common/package/boot/uboot-ipq40xx/src/common/cmd_mtdparts.c:808-824 | device_add keeps the current partition and the variables in step |
| `MtdTracking.InitTracks` | common/package/boot/uboot-ipq40xx/src/common/cmd_mtdparts.c:1706-1834 | mtdparts_init leaves a valid current partition and variables in step |
| `MtdTracking.StepTracks` | common/package/boot/uboot-ipq40xx/src/common/cmd_mtdparts.c:1929-2043 | every command keeps the current partition valid and the variables in step, unless it deletes a partition whose offset contradicts its position |
| `MtdTracking.RunTracks` | common/package/boot/uboot-ipq40xx/src/common/cmd_mtdparts.c:231-264 | the same over every run from power-up in which no such deletion occurs, spreading included and no list assumed sorted; then mtddevnum is the position of the current partition in the concatenation of all lists |
| `MtdTracking.DistinctRunTracks` | common/package/boot/uboot-ipq40xx/src/common/cmd_mtdparts.c:446-483 | a run whose deletions all find distinct offsets keeps track of the current partition |
| `MtdTracking.SortedConfused` | common/package/boot/uboot-ipq40xx/src/common/cmd_mtdparts.c:462-470 | in a sorted list the deletions that lose the current partition are those of a later one at its offset |
| `MtdTracking.DelKeepsCurrent` | common/package/boot/uboot-ipq40xx/src/common/cmd_mtdparts.c:1409-1433 | deleting another partition leaves the current one current |
| `MtdTracking.AddKeepsCurrent` | common/package/boot/uboot-ipq40xx/src/common/cmd_mtdparts.c:1960-2028 | adding a partition leaves the current one current, unless the insertion is one that MtdRuns.InsertTracks excludes |
| `MtdCalm.InitIdle` | common/package/boot/uboot-ipq40xx/src/common/cmd_mtdparts.c:1706-1834 | mtdparts_init changes nothing while the environment holds what the commands left in it |
| `MtdCalm.ParseSyncs` | common/package/boot/uboot-ipq40xx/src/common/cmd_mtdparts.c:1785-1833 | after a parse it does |
| `MtdCalm.StepCalm` | common/package/boot/uboot-ipq40xx/src/common/cmd_mtdparts.c:1929-2043 | add, del or list that does not delete the current partition leaves it current and the environment in step |
| `MtdCalm.RunKeepsCurrent` | common/package/boot/uboot-ipq40xx/src/common/cmd_mtdparts.c:1706-2043 | through every run of such commands, their inits included, the same partition stays current |
| `MtdCalm.AddKeepsInRuns` | common/package/boot/uboot-ipq40xx/src/common/cmd_mtdparts.c:1960-2028 | after all runs that keep the lists sorted, add leaves a current partition below number 255 current |
| `MtdPlacement.StepPlaced` | common/package/boot/uboot-ipq40xx/src/common/cmd_mtdparts.c:1929-2043 | on chips of whole blocks that can tell bad ones, every command, spreading included, keeps lists sorted and partitions on blocks inside the chip |
| `MtdPlacement.RunPlaced` | common/package/boot/uboot-ipq40xx/src/common/cmd_mtdparts.c:1706-2043 | the same over every run from power-up |
| `MtdPlacement.RunSorted` | common/package/boot/uboot-ipq40xx/src/common/cmd_mtdparts.c:511-565 | every list stays sorted in all runs without spreading, and on such chips in all runs |
| `MtdPlacement.ConfusedInRuns` | common/package/boot/uboot-ipq40xx/src/common/cmd_mtdparts.c:462-470 | in all these runs the deletions that lose the current partition are exactly those of a later partition at its offset |
| `MtdPlacement.SpreadAfterRun` | common/package/boot/uboot-ipq40xx/src/common/cmd_mtdparts.c:1485-1527 | after any run the spread command leaves every device with its partitions in order and disjoint, their former sizes in good blocks or cut at the chip end, and good first blocks behind partitions that left some over |
| `MtdLimit.SavedAcceptedIff` | common/package/boot/uboot-ipq40xx/src/common/cmd_mtdparts.c:1764-1767 | a text that was saved is accepted by the next mtdparts_init, if and only if it has at most 1023 characters with its prefix |
| `MtdLimit.SavedThenRefused` | common/package/boot/uboot-ipq40xx/src/common/cmd_mtdparts.c:1092-1102 | a run that reads a table within the limit and adds a partition, after which the saved text of 1024 to 1029 characters is refused |
| `MtdTracking.DistinctNotConfused` | common/package/boot/uboot-ipq40xx/src/common/cmd_mtdparts.c:466-468 | distinct offsets rule out the deletions that lose the current partition |
| `MtdTracking.PartitionTextFound` | common/package/boot/uboot-ipq40xx/src/common/cmd_mtdparts.c:1349-1401 | the text current_save writes is resolved by find_dev_and_part to the current partition, if and only if no other partition bears that text as its name |
| `MtdLookup.FirstNamed` | common/package/boot/uboot-ipq40xx/src/common/cmd_mtdparts.c:1358-1367 | a name stands for the first partition, in the order of all lists, that bears it |
| `MtdLookup.MtdIdIff` | common/package/boot/uboot-ipq40xx/src/common/cmd_mtdparts.c:1046-1074 | a device id is a type name followed by a number, which is taken modulo 256, and the rest of the text |
| `MtdLookup.FindsCalled` | common/package/boot/uboot-ipq40xx/src/common/cmd_mtdparts.c:1349-1401 | find_dev_and_part finds a partition if and only if the text calls it: the first that bears the text as its name or, when none does, the one whose device type, device number and partition number the text denotes |
| `MtdLookup.PartDelTakes` | common/package/boot/uboot-ipq40xx/src/common/cmd_mtdparts.c:446-483 | part_del takes exactly its partition out of the concatenation of all lists |
| `MtdLookup.DelRemovesCalled` | common/package/boot/uboot-ipq40xx/src/common/cmd_mtdparts.c:1409-1433 | del takes exactly the partition that its argument calls out of the concatenation of all lists, and changes nothing when it calls none |
| `MtdLookup.ChpartChooses` | common/package/boot/uboot-ipq40xx/src/common/cmd_mtdparts.c:1891-1917 | chpart makes exactly the partition that its argument calls current, and changes nothing when it calls none |
| `MtdLookup.InitChooses` | common/package/boot/uboot-ipq40xx/src/common/cmd_mtdparts.c:1785-1833 | after a parse the partition that the partition variable calls is current, or the first one of the first device |
| `MtdLookup.AddLenIs` | common/package/boot/uboot-ipq40xx/src/common/cmd_mtdparts.c:1981-1985 | the length that is checked is that of the description, as far as a u8 holds it |
| `MtdLookup.AddResult` | common/package/boot/uboot-ipq40xx/src/common/cmd_mtdparts.c:1973-2002 | the arguments of add make one partition of their size, offset, name and flag, if and only if that is valid on the device; without an offset it starts behind the last partition of the device |
| `MtdEffects.AddAdds` | common/package/boot/uboot-ipq40xx/src/common/cmd_mtdparts.c:1960-2028 | an add that is not refused adds exactly one partition, to its device or as a device of its own, and reports success if and only if the text of the table fits |
| `MtdEffects.PartAddIff` | common/package/boot/uboot-ipq40xx/src/common/cmd_mtdparts.c:574-585 | part_add refuses a partition if and only if it does not validate or is a second one at offset 0 |
| `MtdEffects.PartAddAdds` | common/package/boot/uboot-ipq40xx/src/common/cmd_mtdparts.c:574-585 | part_add adds exactly its validated partition to the table |
| `MtdEffects.IdOfIff` | common/package/boot/uboot-ipq40xx/src/common/cmd_mtdparts.c:989-1002 | id_find finds an id if and only if one has the type and number, and then the first one |
| `MtdEffects.LongRefused` | common/package/boot/uboot-ipq40xx/src/common/cmd_mtdparts.c:1987-1990 | a description of 64 or more characters modulo 256 is refused |
| `MtdEffects.AddSpreads` | common/package/boot/uboot-ipq40xx/src/common/cmd_mtdparts.c:2005-2011 | add.spread makes the partition that add makes, well spread |
| `MtdEffects.ChangeIsSaved` | common/package/boot/uboot-ipq40xx/src/common/cmd_mtdparts.c:1211-1223 | whenever add, del or spread changes the table, last_parts and mtdparts hold the text of the new one, or nothing when it is too long |
| `MtdEffects.SpreadDevicesIff` | common/package/boot/uboot-ipq40xx/src/common/cmd_mtdparts.c:1485-1527 | spreading goes through if and only if every device has a chip |
| `MtdEffects.DelAllEmpties` | common/package/boot/uboot-ipq40xx/src/common/cmd_mtdparts.c:1939-1947 | delall leaves no device, no current partition, no cached text and no variable |
| `MtdEffects.UnsetEmpties` | common/package/boot/uboot-ipq40xx/src/common/cmd_mtdparts.c:1807-1813 | a table whose text is gone from the environment is thrown away; without a cached text nothing changes |
| `MtdEffects.RefusedEmpties` | common/package/boot/uboot-ipq40xx/src/common/cmd_mtdparts.c:1785-1801 | a text that cannot be parsed leaves no table at all |
| `MtdEffects.SkipFollows` | common/package/boot/uboot-ipq40xx/src/common/cmd_mtdparts.c:1815-1833 | when nothing is parsed again, the partition that the changed partition variable calls becomes current; an unset variable is written again from the current one |
| `MtdEffects.SetThenFollow` | common/package/boot/uboot-ipq40xx/src/common/cmd_mtdparts.c:1815-1833 | setting the partition variable and running the next command makes the partition it calls current |
| `MtdSpread.GetLenInclBad` | common/package/boot/uboot-ipq40xx/src/drivers/mtd/mtdcore.c:158-187 | the loop returns the length over bad blocks and the truncation flag of the recursive definition |
| `MtdSpread.NetPartSize` | common/package/boot/uboot-ipq40xx/src/common/cmd_mtdparts.c:1233-1246 | the loop counts the good bytes of a partition |
| `MtdSpread.SpreadPartition` | common/package/boot/uboot-ipq40xx/src/common/cmd_mtdparts.c:1446-1476 | spread_partition sets the size its specification gives and returns the end |
| `MtdSpread.SpreadDevice` | common/package/boot/uboot-ipq40xx/src/common/cmd_mtdparts.c:1500-1517 | the partition loop moves and sizes every partition as specified |
| `MtdSpread.BlocksForIs` | common/package/boot/uboot-ipq40xx/src/drivers/mtd/mtdcore.c:158-187 | the search stops right behind the block that completes the count of good blocks; it is truncated exactly when the chip has too few |
| `MtdSpread.SpreadBytes` | common/package/boot/uboot-ipq40xx/src/common/cmd_mtdparts.c:1446-1476 | a spread partition lies on blocks inside the chip, holds as many good bytes as it was long or all that are left, and is followed by a good block when any good one is left over |
| `MtdSpread.SpreadPartsOk` | common/package/boot/uboot-ipq40xx/src/common/cmd_mtdparts.c:1485-1527 | every partition of a device, placed behind its predecessor, is well spread |
| `MtdSpread.SpreadTheorem` | common/package/boot/uboot-ipq40xx/src/common/cmd_mtdparts.c:1446-1527 | for every bad-block map the partitions end up in order and disjoint, each one not truncated has its former size in good blocks, truncated ones end at the chip end, and a partition right behind one that left good blocks over starts on a good block |
| `MtdSpread.SpreadWithoutQuery` | common/package/boot/uboot-ipq40xx/src/common/cmd_mtdparts.c:1446-1476 | on a chip without a bad-block query a partition is only moved and keeps its size |
| `MtdCommands.Put` | common/package/boot/uboot-ipq40xx/src/common/cmd_mtdparts.c:1107-1114 | a piece is appended if it fits and the space left is charged for it |
| `MtdCommands.PutPart` | common/package/boot/uboot-ipq40xx/src/common/cmd_mtdparts.c:1120-1171 | one partition is printed as specified, or the text is too long |
| `MtdCommands.PutParts` | common/package/boot/uboot-ipq40xx/src/common/cmd_mtdparts.c:1117-1182 | the partitions of one device are printed as specified, or the text is too long |
| `MtdCommands.PutDevice` | common/package/boot/uboot-ipq40xx/src/common/cmd_mtdparts.c:1105-1189 | one device is printed as specified, or the text is too long |
| `MtdCommands.GenerateMtdparts` | common/package/boot/uboot-ipq40xx/src/common/cmd_mtdparts.c:1084-1201 | the text is the printed table; it succeeds exactly when the text fits the buffer with the nine prefix characters not charged |
| `MtdCommands.FindBlock` | common/package/boot/uboot-ipq40xx/src/common/cmd_mtdparts.c:359-386 | the walk over regions and blocks finds a block start if and only if there is one |
| `MtdCommands.PartValidateEraseblock` | common/package/boot/uboot-ipq40xx/src/common/cmd_mtdparts.c:325-397 | accepts exactly the partitions that start and end at erase blocks |
| `MtdCommands.PartValidate` | common/package/boot/uboot-ipq40xx/src/common/cmd_mtdparts.c:410-437 | the partition with its size resolved, or a refusal |
| `MtdCommands.SortAdd` | common/package/boot/uboot-ipq40xx/src/common/cmd_mtdparts.c:511-565 | the list walk inserts where the specification does |
| `MtdCommands.ParsePartsLoop` | common/package/boot/uboot-ipq40xx/src/common/cmd_mtdparts.c:882-917 | the partition loop of device_parse |
| `MtdCommands.ParseDevice` | common/package/boot/uboot-ipq40xx/src/common/cmd_mtdparts.c:835-968 | device_parse |
| `MtdCommands.ParseText` | common/package/boot/uboot-ipq40xx/src/common/cmd_mtdparts.c:1537-1584 | parse_mtdparts from an empty list |
| `MtdCommands.SpreadList` | common/package/boot/uboot-ipq40xx/src/common/cmd_mtdparts.c:1485-1527 | the device loop of spread_partitions, up to the first device without a chip |
| `MtdCommands.MtdParts.constructor` | common/package/boot/uboot-ipq40xx/src/common/cmd_mtdparts.c:1708-1722 | new state: the state at power-up |
| `MtdCommands.MtdParts.IndexPartitions` | common/package/boot/uboot-ipq40xx/src/common/cmd_mtdparts.c:231-264 | new state: mtddevnum and mtddevname from the current partition |
| `MtdCommands.MtdParts.CurrentSave` | common/package/boot/uboot-ipq40xx/src/common/cmd_mtdparts.c:269-290 | new state: the partition variable, its cache and the index variables |
| `MtdCommands.MtdParts.DeviceDel` | common/package/boot/uboot-ipq40xx/src/common/cmd_mtdparts.c:756-778 | new state: the device goes and the current partition is chosen again |
| `MtdCommands.MtdParts.PartDel` | common/package/boot/uboot-ipq40xx/src/common/cmd_mtdparts.c:446-483 | new state: the partition goes, with its device when it was the last, and the current number follows |
| `MtdCommands.MtdParts.PartSortAdd` | common/package/boot/uboot-ipq40xx/src/common/cmd_mtdparts.c:511-565 | new state: the partition is linked in order and the current number follows, or nothing changes |
| `MtdCommands.MtdParts.PartAdd` | common/package/boot/uboot-ipq40xx/src/common/cmd_mtdparts.c:574-585 | new state: validation, then sorted insertion |
| `MtdCommands.MtdParts.DeviceAdd` | common/package/boot/uboot-ipq40xx/src/common/cmd_mtdparts.c:808-824 | new state: the device is appended; the first one becomes current |
| `MtdCommands.MtdParts.GenerateSave` | common/package/boot/uboot-ipq40xx/src/common/cmd_mtdparts.c:1211-1223 | new state: last_parts and the mtdparts variable get the printed text, or are cleared |
| `MtdCommands.MtdParts.DevicesInit` | common/package/boot/uboot-ipq40xx/src/common/cmd_mtdparts.c:975-982 | new state: everything is forgotten |
| `MtdCommands.MtdParts.Reparse` | common/package/boot/uboot-ipq40xx/src/common/cmd_mtdparts.c:1785-1805 | new state: the table parsed from a text, with its first partition current |
| `MtdCommands.MtdParts.FollowPartition` | common/package/boot/uboot-ipq40xx/src/common/cmd_mtdparts.c:1815-1833 | new state: the partition variable is followed when it changed |
| `MtdCommands.MtdParts.MtdpartsInit` | common/package/boot/uboot-ipq40xx/src/common/cmd_mtdparts.c:1706-1834 | new state: mtdparts_init with fixed mtdids |
| `MtdCommands.MtdParts.AddDevice` | common/package/boot/uboot-ipq40xx/src/common/cmd_mtdparts.c:1973-2011 | new state: the device parsed from the arguments of add |
| `MtdCommands.MtdParts.Add` | common/package/boot/uboot-ipq40xx/src/common/cmd_mtdparts.c:1960-2028 | new state: add to a new or an existing device, then save the text |
| `MtdCommands.MtdParts.DeletePartition` | common/package/boot/uboot-ipq40xx/src/common/cmd_mtdparts.c:1409-1433 | new state: find, delete and save the text |
| `MtdCommands.MtdParts.SpreadPartitions` | common/package/boot/uboot-ipq40xx/src/common/cmd_mtdparts.c:1485-1527 | new state: spread all devices and save the text |
| `MtdCommands.MtdParts.Execute` | common/package/boot/uboot-ipq40xx/src/common/cmd_mtdparts.c:1929-2043 | new state: one command line |
| `Kermit.UnquoteSplit` | common/package/boot/uboot-ipq40xx/src/common/cmd_load.c:675-690 | unquoting goes on across any cut of the data, also through a quoted pair |
| `Kermit.UnquoteInverts` | common/package/boot/uboot-ipq40xx/src/common/cmd_load.c:675-690 | unquoting undoes the protocol's quoting for every byte string and every quote character that ktrans keeps |
| `Kermit.UnquoteInvertsIff` | common/package/boot/uboot-ipq40xx/src/common/cmd_load.c:558-566 | for quote characters 33..126 this holds for all strings if and only if the character is 33..62 or 96..126 |
| `Kermit.QuoteLegal` | common/package/boot/uboot-ipq40xx/src/common/cmd_load.c:914-919 | quoted data never contains a byte below SPACE |
| `KermitDelivery.FeedStores` | common/package/boot/uboot-ipq40xx/src/common/cmd_load.c:638-690 | data is stored unquoted behind the image; what the checkpoint covers is untouched |
| `KermitDelivery.CopyApplies` | common/package/boot/uboot-ipq40xx/src/common/cmd_load.c:864-956 | one copy of a packet: intact, it is applied once and acknowledged; damaged, the checkpoint is restored and it is refused |
| `KermitDelivery.EarlyErrorIff` | common/package/boot/uboot-ipq40xx/src/common/cmd_load.c:849-881 | an error before the sequence byte, right behind a copy of a packet, changes nothing if and only if the copy was damaged or the packet adds nothing |
| `KermitDelivery.RoundLeaves` | common/package/boot/uboot-ipq40xx/src/common/cmd_load.c:864-956 | whatever copies and early errors follow a packet, it is applied once if the last of them is an intact copy and not at all otherwise |
| `KermitDelivery.RoundIff` | common/package/boot/uboot-ipq40xx/src/common/cmd_load.c:864-956 | the events of a packet leave it applied once, if and only if the last one is an intact copy or the packet adds nothing |
| `KermitDelivery.RunRound` | common/package/boot/uboot-ipq40xx/src/common/cmd_load.c:819-957 | all events of a packet that is not B are handled |
| `KermitDelivery.EveryRun` | common/package/boot/uboot-ipq40xx/src/common/cmd_load.c:785-959 | for every run, with early errors anywhere, memory holds the data of exactly the packets that end with an intact copy, in order, and k_recv returns its length |
| `KermitDelivery.RunBreak` | common/package/boot/uboot-ipq40xx/src/common/cmd_load.c:785-959 | damaged copies of B and early errors are refused, the intact copy ends the transfer with the image length |
| `KermitDelivery.ExactlyOnce` | common/package/boot/uboot-ipq40xx/src/common/cmd_load.c:785-959 | for every run of packets in any number of good and bad copies, with early errors among them, memory holds the unquoted data of every packet once and in order and k_recv returns its length, when each packet ends with an intact copy or has nothing to add |
| `KermitDelivery.ExactlyOnceIff` | common/package/boot/uboot-ipq40xx/src/common/cmd_load.c:785-959 | and only then, for packets that do not end inside a quoted pair |
| `KermitDelivery.LostQuoteUnnoticed` | common/package/boot/uboot-ipq40xx/src/common/cmd_load.c:675-690 | a lone quote character taken back before a blank goes unnoticed, so the restriction to whole pairs is needed |
| `KermitDelivery.DeliverIsUnquote` | common/package/boot/uboot-ipq40xx/src/common/cmd_load.c:675-690 | the delivery is the unquoting of all data in one go, pairs split across packets included |
| `KermitDelivery.FileArrives` | common/package/boot/uboot-ipq40xx/src/common/cmd_load.c:785-959 | a file quoted with the announced character and cut into packets in any way arrives as it was |
| `KermitLine.ReadEncoded` | common/package/boot/uboot-ipq40xx/src/common/cmd_load.c:785-959 | a short or extended packet as the protocol encodes it is read back whole, and nothing behind it is touched |
| `KermitLine.ReadEventLocal` | common/package/boot/uboot-ipq40xx/src/common/cmd_load.c:785-959 | what is read does not depend on the bytes that follow |
| `KermitLine.ReceiveChunks` | common/package/boot/uboot-ipq40xx/src/common/cmd_load.c:785-959 | reading a concatenation of packets is handling their events in order |
| `KermitLine.LineDelivers` | common/package/boot/uboot-ipq40xx/src/common/cmd_load.c:785-959 | from line bytes to memory: copies that carry their packets deliver the file and its length |
| `KermitLine.CleanLineDelivers` | common/package/boot/uboot-ipq40xx/src/common/cmd_load.c:785-959 | the encoded packets of a transfer, sent one after the other, load the file |
| `KermitLine.EncodedCarries` | common/package/boot/uboot-ipq40xx/src/common/cmd_load.c:785-959 | an encoded packet is read as its intact copy and nothing is left over |
| `KermitLine.ReplyWellFormed` | common/package/boot/uboot-ipq40xx/src/common/cmd_load.c:587-611 | replies of send_ack and send_nack are packets that the reader itself accepts |
| `KermitDamage.ReadDataIff` | common/package/boot/uboot-ipq40xx/src/common/cmd_load.c:914-940 | data and trailer are taken as intact if and only if the bytes are printable, the check character fits the byte sum and a carriage return follows |
| `KermitDamage.ShortIff` | common/package/boot/uboot-ipq40xx/src/common/cmd_load.c:848-940 | a short packet is intact if and only if type and data are printable, the check fits the sum of all its bytes and it ends with a carriage return |
| `KermitDamage.LongHeadIff` | common/package/boot/uboot-ipq40xx/src/common/cmd_load.c:890-911 | an extended header is refused unless its own check fits; otherwise the data has the length it says |
| `KermitDamage.LongIff` | common/package/boot/uboot-ipq40xx/src/common/cmd_load.c:890-940 | the same for a packet with an accepted extended header |
| `KermitDamage.ShortDamage` | common/package/boot/uboot-ipq40xx/src/common/cmd_load.c:932-946 | an encoded packet with one byte changed behind the sequence number is read as intact if and only if the byte is printable and the six check bits agree for both byte sums; otherwise it is damaged, with the same number. A changed check or end character is always noticed |
| `KermitDamage.LongDamage` | common/package/boot/uboot-ipq40xx/src/common/cmd_load.c:890-946 | the same for extended packets, with the two length digits under the header check as well |
| `KermitDamage.WaitSkips` | common/package/boot/uboot-ipq40xx/src/common/cmd_load.c:836-847 | waiting for a packet passes over everything up to the start character or ^C |
| `KermitDamage.CancelEnds` | common/package/boot/uboot-ipq40xx/src/common/cmd_load.c:842-843 | ^C between packets ends the transfer with 0 and changes nothing |
| `KermitDamage.HeaderIff` | common/package/boot/uboot-ipq40xx/src/common/cmd_load.c:848-862 | a packet has a number if and only if length and number bytes are both printable; a bad type byte is damage of that packet |
| `KermitDamage.StateTakenBack` | common/package/boot/uboot-ipq40xx/src/common/cmd_load.c:871-881 | after an error the state is the one before the first copy of the packet |
| `KermitDamage.QuoteIsSixth` | common/package/boot/uboot-ipq40xx/src/common/cmd_load.c:703-748 | the sixth parameter of an S packet is the quote character, # when there are fewer |
| `KermitDamage.CutOff` | common/package/boot/uboot-ipq40xx/src/common/cmd_load.c:914-930 | a line that ends inside a packet leaves what came of its data loaded and nothing answered |
| `KermitReceiver.Receiver.constructor` | common/package/boot/uboot-ipq40xx/src/common/cmd_load.c:795-808 | new state: a fresh receiver |
| `KermitReceiver.Receiver.StoreByte` | common/package/boot/uboot-ipq40xx/src/common/cmd_load.c:638-645 | new state: one byte at the write position |
| `KermitReceiver.Receiver.DataChar` | common/package/boot/uboot-ipq40xx/src/common/cmd_load.c:675-690 | new state: one data character, unquoted |
| `KermitReceiver.Receiver.Begin` | common/package/boot/uboot-ipq40xx/src/common/cmd_load.c:871-880 | new state: a new sequence number takes a checkpoint, the last one again returns to it |
| `KermitReceiver.Receiver.Fail` | common/package/boot/uboot-ipq40xx/src/common/cmd_load.c:941-946 | new state: back to the checkpoint, with a NAK |
| `KermitReceiver.Receiver.SaveParm` | common/package/boot/uboot-ipq40xx/src/common/cmd_load.c:924-930 | new state: a parameter is saved; the last slot takes all that overflow |
| `KermitReceiver.Receiver.Accept` | common/package/boot/uboot-ipq40xx/src/common/cmd_load.c:947-956 | new state: acknowledge; an S packet sets the quote character |
| `KermitReceiver.Receiver.ReceiveData` | common/package/boot/uboot-ipq40xx/src/common/cmd_load.c:914-940 | new state: data characters and trailer |
| `KermitReceiver.Receiver.Trailer` | common/package/boot/uboot-ipq40xx/src/common/cmd_load.c:932-940 | new state: check character and end of line |
| `KermitReceiver.Receiver.ReceiveExtended` | common/package/boot/uboot-ipq40xx/src/common/cmd_load.c:890-913 | new state: the extended header and what follows it |
| `KermitReceiver.Receiver.ReceiveType` | common/package/boot/uboot-ipq40xx/src/common/cmd_load.c:883-940 | new state: type and everything behind it |
| `KermitReceiver.Receiver.ReceiveFrame` | common/package/boot/uboot-ipq40xx/src/common/cmd_load.c:848-956 | new state: one packet after its start character, with the reply |
| `KermitReceiver.Receiver.ReceiveBody` | common/package/boot/uboot-ipq40xx/src/common/cmd_load.c:864-956 | new state: the packet behind its length and sequence number, with the reply |
| `KermitReceiver.Receiver.ReceivePacket` | common/package/boot/uboot-ipq40xx/src/common/cmd_load.c:836-956 | new state: wait for a packet and take it |
| `KermitReceiver.Receiver.KRecv` | common/package/boot/uboot-ipq40xx/src/common/cmd_load.c:785-959 | new state: memory and result are those of the specification on the whole input |
| `LogBuffer.NothingLost` | common/package/boot/uboot-ipq40xx/src/common/cmd_log.c:269-326 | deleting the inserted tags gives the concatenated messages: writing a tag in front of a line never destroys text not yet logged |
| `LogBuffer.EveryLineTagged` | common/package/boot/uboot-ipq40xx/src/common/cmd_log.c:279-324 | every line of the stream begins with a tag <0> to <7>, over all messages |
| `LogBuffer.LayoutsAgree` | common/package/boot/uboot-ipq40xx/src/common/cmd_log.c:298-318 | both header layouts show the last LOGBUFF_LEN characters of the stream, with 32-bit counters that may wrap |
| `LogBuffer.AdvanceCounts` | common/package/boot/uboot-ipq40xx/src/common/cmd_log.c:299-313 | one more character keeps either header a description of the stream, also across wrap-around |
| `LogBuffer.ShowLast` | common/package/boot/uboot-ipq40xx/src/common/cmd_log.c:215-229 | a buffer that holds the end of the stream shows it |
| `LogBuffer.LogAllIsStream` | common/package/boot/uboot-ipq40xx/src/common/cmd_log.c:269-326 | logging messages one by one is logging their stream |
| `LogBuffer.LogRefinement` | common/package/boot/uboot-ipq40xx/src/common/cmd_log.c:269-326 | for every sequence of messages after power-up or a reset both layouts show the same text, the end of a stream from which the messages can be read off; every line of it is tagged if and only if the run begins between lines, logs nothing or begins with a tag of its own |
| `LogBuffer.TaggedIff` | common/package/boot/uboot-ipq40xx/src/common/cmd_log.c:279-324 | exactly when every line of a stream that begins with a given level carries a tag |
| `LogBuffer.ResetInMidLine` | common/package/boot/uboot-ipq40xx/src/common/cmd_log.c:119-141 | logbuff_reset keeps the level: after a reset in the middle of a line the shown text begins without a tag |
| `LogBuffer.InsertedIff` | common/package/boot/uboot-ipq40xx/src/common/cmd_log.c:281-296 | the tag <4>, and nothing else, is put in front of exactly those lines of a message that bring no tag of their own |
| `LogBuffer.LevelIsTag` | common/package/boot/uboot-ipq40xx/src/common/cmd_log.c:281-324 | after every run the level is that of the tag of the open line, or no line is open |
| `LogCommands.Log.constructor` | common/package/boot/uboot-ipq40xx/src/common/cmd_log.c:76-117 | new state: an empty log |
| `LogCommands.Log.ResetLog` | common/package/boot/uboot-ipq40xx/src/common/cmd_log.c:119-141 | new state: the header is reset |
| `LogCommands.Log.PutChar` | common/package/boot/uboot-ipq40xx/src/common/cmd_log.c:299-313 | new state: one character in the circular buffer |
| `LogCommands.Log.PutLine` | common/package/boot/uboot-ipq40xx/src/common/cmd_log.c:297-318 | new state: characters up to a line feed or the end |
| `LogCommands.Log.CopyIn` | common/package/boot/uboot-ipq40xx/src/common/cmd_log.c:276-278 | new state: the message behind three free places |
| `LogCommands.Log.TagLine` | common/package/boot/uboot-ipq40xx/src/common/cmd_log.c:281-296 | new state: a tag in front of the line unless it has one; the rest of the message is kept |
| `LogCommands.Log.PutTaggedLine` | common/package/boot/uboot-ipq40xx/src/common/cmd_log.c:279-324 | new state: one line of the message |
| `LogCommands.Log.Printk` | common/package/boot/uboot-ipq40xx/src/common/cmd_log.c:269-326 | new state: buffer, header and level as specified for the whole message |
| `LogCommands.Log.ShowLog` | common/package/boot/uboot-ipq40xx/src/common/cmd_log.c:215-229 | the loop shows the text of the specification |
| `FlashRange.SelectIsRun` | common/package/boot/uboot-ipq40xx/src/common/cmd_flash.c:209-289 | every successful selection is one contiguous run that begins at addr_first and lies inside the request |
| `FlashRange.RunsIffNoWrap` | common/package/boot/uboot-ipq40xx/src/common/cmd_flash.c:209-289 | for disjoint banks every successful selection is a run from its first address, if and only if no bank at the top of the address space comes before one at 0 |
| `FlashRange.ClearSelects` | common/package/boot/uboot-ipq40xx/src/common/cmd_flash.c:224-286 | with no bank in the way a request to the last address never fails |
| `FlashRange.LeadsSelects` | common/package/boot/uboot-ipq40xx/src/common/cmd_flash.c:209-289 | a request along banks that follow one another in the table is selected up to its last address |
| `FlashRange.WrapTakesBankAtZero` | common/package/boot/uboot-ipq40xx/src/common/cmd_flash.c:209-289 | in every table with a bank at the top of the address space and a later one at 0, a request for the first succeeds and selects address 0 |
| `FlashRange.RoundBIs` | common/package/boot/uboot-ipq40xx/src/common/cmd_flash.c:112-148 | rounding gives the end of a sector that contains the address |
| `FlashRange.OneSector` | common/package/boot/uboot-ipq40xx/src/common/cmd_flash.c:209-289 | no address lies in two sectors of disjoint banks |
| `FlashRange.SelectedIsCovered` | common/package/boot/uboot-ipq40xx/src/common/cmd_flash.c:209-289 | a sector is selected exactly when any of its addresses is covered |
| `FlashRange.EraseCover` | common/package/boot/uboot-ipq40xx/src/common/cmd_flash.c:209-289 | for `erase start +len` from a sector start along adjacent banks, the selected sectors are exactly those that meet [start, start+len) |
| `FlashRange.EraseIff` | common/package/boot/uboot-ipq40xx/src/common/cmd_flash.c:209-289 | `erase start +len` is accepted if and only if it runs from a sector start along the banks in table order, and then selects exactly the sectors that meet [start, start+len) |
| `FlashRange.SelectsOnlyLeads` | common/package/boot/uboot-ipq40xx/src/common/cmd_flash.c:209-289 | a selection that ends with a sector runs along the banks in table order |
| `FlashRange.RoundBIff` | common/package/boot/uboot-ipq40xx/src/common/cmd_flash.c:112-148 | rounding succeeds if and only if some sector of some bank holds the address |
| `FlashRange.RoundBEnds` | common/package/boot/uboot-ipq40xx/src/common/cmd_flash.c:112-148 | and then gives the end of the sector that holds it |
| `FlashRange.PickIff` | common/package/boot/uboot-ipq40xx/src/common/cmd_flash.c:235-285 | a bank stops the walk, is passed by or gives its sectors, exactly by what starts at the address reached and what ends with the request |
| `FlashRange.RefusedIff` | common/package/boot/uboot-ipq40xx/src/common/cmd_flash.c:209-289 | a request is refused if and only if some bank stops the walk that the banks before it let through |
| `FlashRange.CountIs` | common/package/boot/uboot-ipq40xx/src/common/cmd_flash.c:275-275 | the reported number is that of the selected sectors |
| `FlashCommands.SectRoundB` | common/package/boot/uboot-ipq40xx/src/common/cmd_flash.c:112-148 | the loops find the sector end of the specification |
| `FlashCommands.FindSectors` | common/package/boot/uboot-ipq40xx/src/common/cmd_flash.c:239-255 | the sector loop finds the first and the last sector of the request in a bank |
| `FlashCommands.Pick` | common/package/boot/uboot-ipq40xx/src/common/cmd_flash.c:235-285 | what one bank contributes |
| `FlashCommands.FillSectRanges` | common/package/boot/uboot-ipq40xx/src/common/cmd_flash.c:209-289 | fails exactly when the specification does; otherwise s_first, s_last and s_count are its selection and size |
| `FlashCommands.SectErase` | common/package/boot/uboot-ipq40xx/src/common/cmd_flash.c:418-453 | flash_erase is called for exactly the selected ranges up to the first failure, which is returned; an empty selection is an error |
| `FlashCommands.EraseBanks` | common/package/boot/uboot-ipq40xx/src/common/cmd_flash.c:430-446 | the erase loop makes those calls and returns that failure |
| `FlashCommands.CallsIff` | common/package/boot/uboot-ipq40xx/src/common/cmd_flash.c:430-446 | a selected bank is erased, with all its selected sectors, if and only if none before it fails, and the first failure is returned |
| `OneNand.WriteTwice` | common/package/boot/uboot-ipq40xx/src/common/cmd_onenand.c:139-185 | a write followed by one to where it ended does what one write of both does, also in failing |
| `OneNand.ChunkedWrites` | common/package/boot/uboot-ipq40xx/src/common/cmd_onenand.c:139-185 | any number of consecutive writes place the data as one combined write |
| `OneNand.ReadBack` | common/package/boot/uboot-ipq40xx/src/common/cmd_onenand.c:68-113 | when reading and writing skip the same blocks from the start of a write to behind its last target, reading from there returns the data |
| `OneNand.ReadBackIff` | common/package/boot/uboot-ipq40xx/src/common/cmd_onenand.c:68-185 | reading from where a write started returns the data, for every data and every previous contents, if and only if reading and writing skip the same blocks up to behind the last target |
| `OneNand.ChunkedReadBackIff` | common/package/boot/uboot-ipq40xx/src/common/cmd_onenand.c:68-185 | a file written in any pieces is read back from its offset, for every data and every previous contents, if and only if reading skips everything from that offset to where the write really started and both skip the same blocks from there to behind the last target |
| `OneNand.SecondFileShifted` | common/package/boot/uboot-ipq40xx/src/common/cmd_onenand.c:149-156 | two files one behind the other on a chip whose first block is bad: reading from the offset of the second gives the first |
| `OneNand.ShiftedUsable` | common/package/boot/uboot-ipq40xx/src/common/cmd_onenand.c:85-110 | usable blocks counted from an earlier block are the same exactly when everything in between is skipped and the sets agree from there on |
| `OneNand.OffsetsStayAligned` | common/package/boot/uboot-ipq40xx/src/common/cmd_onenand.c:149-182 | skip_ofs stays a multiple of the block size |
| `OneNand.RefusedBlockIsRead` | common/package/boot/uboot-ipq40xx/src/common/cmd_onenand.c:171-175 | a block that refused a write and is not marked bad is read as if it held the data |
| `OneNand.WriteKeepsOthers` | common/package/boot/uboot-ipq40xx/src/common/cmd_onenand.c:158-182 | a write puts its data into its targets and changes no other block |
| `OneNand.SameUsable` | common/package/boot/uboot-ipq40xx/src/common/cmd_onenand.c:85-110 | two sets of skipped blocks give the same usable blocks exactly when they agree up to the last of them |
| `OneNand.UsableSplit` | common/package/boot/uboot-ipq40xx/src/common/cmd_onenand.c:139-185 | the usable blocks for j + k blocks are those for j and then those for k behind them |
| `OneNand.Driver.constructor` | common/package/boot/uboot-ipq40xx/src/common/cmd_onenand.c:24-25 | both static offsets are zero |
| `OneNand.Driver.WriteBlocks` | common/package/boot/uboot-ipq40xx/src/common/cmd_onenand.c:158-182 | new state: the data in the first blocks that are neither bad nor refuse it, and how many were skipped |
| `OneNand.Driver.BlockWrite` | common/package/boot/uboot-ipq40xx/src/common/cmd_onenand.c:139-185 | new state: contents and static offsets as specified |
| `OneNand.Driver.BlockRead` | common/package/boot/uboot-ipq40xx/src/common/cmd_onenand.c:68-113 | the contents of the first blocks that are neither bad nor unreadable |
| `OneNand.UsableIff` | common/package/boot/uboot-ipq40xx/src/common/cmd_onenand.c:85-110 | the blocks used are the first ones in order that are not skipped, with none between them left out; there are none if and only if the chip has too few |
| `OneNand.ReadIff` | common/package/boot/uboot-ipq40xx/src/common/cmd_onenand.c:68-113 | reading gives the contents of the first blocks from the offset on that are neither bad nor unreadable |
| `OneNand.WriteIff` | common/package/boot/uboot-ipq40xx/src/common/cmd_onenand.c:139-185 | writing stores the data into the first blocks from its start on that are neither bad nor refuse, and changes nothing else |
| `FdtProp.ParseCellsText` | common/package/boot/uboot-ipq40xx/src/common/cmd_fdt.c:506-587 | cells are read back from their text, however it is split into arguments |
| `FdtProp.ParseBytesText` | common/package/boot/uboot-ipq40xx/src/common/cmd_fdt.c:506-587 | bytes are read back from their text, however it is split into arguments |
| `FdtProp.ParseStringsBack` | common/package/boot/uboot-ipq40xx/src/common/cmd_fdt.c:572-585 | the strings of a value, each with its NUL, are the value |
| `FdtProp.BracketedLost` | common/package/boot/uboot-ipq40xx/src/common/cmd_fdt.c:506-587 | a printable value that begins with < or [ never comes back |
| `FdtProp.CellsTakeText` | common/package/boot/uboot-ipq40xx/src/common/cmd_fdt.c:517-549 | cells with something in their upper half take more text than they give bytes |
| `FdtProp.PropRoundTrip` | common/package/boot/uboot-ipq40xx/src/common/cmd_fdt.c:638-678 | feeding the text of print_data to fdt_parse_prop gives the same bytes, if and only if the value is not printed as strings beginning with < or [ |
| `FdtProp.PrintableIff` | common/package/boot/uboot-ipq40xx/src/common/cmd_fdt.c:595-630 | a value is shown as strings if and only if it ends with a NUL, has no two in a row and otherwise only visible characters |
| `FdtProp.CellsRefused` | common/package/boot/uboot-ipq40xx/src/common/cmd_fdt.c:517-549 | cells are refused when something other than a digit stands where a number begins, or no closing bracket comes |
| `FdtProp.BytesRefused` | common/package/boot/uboot-ipq40xx/src/common/cmd_fdt.c:550-571 | so are bytes, with blanks allowed in front of each |
| `FdtCommands.IsPrintableString` | common/package/boot/uboot-ipq40xx/src/common/cmd_fdt.c:595-630 | accepts exactly NUL-terminated printable strings with none but the first empty |
| `FdtCommands.ParseCellArgs` | common/package/boot/uboot-ipq40xx/src/common/cmd_fdt.c:517-549 | the cell branch |
| `FdtCommands.ParseByteArgs` | common/package/boot/uboot-ipq40xx/src/common/cmd_fdt.c:550-571 | the byte branch |
| `FdtCommands.FdtParseProp` | common/package/boot/uboot-ipq40xx/src/common/cmd_fdt.c:506-587 | fdt_parse_prop |
| `FdtCommands.ShowData` | common/package/boot/uboot-ipq40xx/src/common/cmd_fdt.c:638-678 | print_data of a non-empty value |
| `FdtCommands.ShowStrings` | common/package/boot/uboot-ipq40xx/src/common/cmd_fdt.c:649-661 | the strings in order |
| `FdtCommands.ShowCells` | common/package/boot/uboot-ipq40xx/src/common/cmd_fdt.c:663-669 | cells as hexadecimal numbers |
| `FdtCommands.ShowBytes` | common/package/boot/uboot-ipq40xx/src/common/cmd_fdt.c:670-677 | bytes as two digits |
| `Eeprom.InPageIsFlat` | common/package/boot/uboot-ipq40xx/src/common/cmd_eeprom.c:217-222 | on a device whose counter wraps inside a page, a write that stays in its page is a flat update |
| `Eeprom.LowByteDecides` | common/package/boot/uboot-ipq40xx/src/common/cmd_eeprom.c:258-266 | the page offset computed from the low address byte is the true one when the page size divides 256 |
| `Eeprom.CutOkIff` | common/package/boot/uboot-ipq40xx/src/common/cmd_eeprom.c:256-272 | every write stays inside its page and within I2C_RXTX_LEN, if and only if the page is at most 256 bytes or bytes go singly |
| `Eeprom.CutHolds` | common/package/boot/uboot-ipq40xx/src/common/cmd_eeprom.c:256-272 | every transfer stays in its page when the page divides 256 or bytes go singly |
| `Eeprom.CutMoves` | common/package/boot/uboot-ipq40xx/src/common/cmd_eeprom.c:256-272 | every transfer moves forward and stays within I2C_RXTX_LEN and the rest |
| `Eeprom.WrittenIsFlat` | common/package/boot/uboot-ipq40xx/src/common/cmd_eeprom.c:200-374 | then the transfers of a whole write make a flat update |
| `Eeprom.FlatIff` | common/package/boot/uboot-ipq40xx/src/common/cmd_eeprom.c:200-374 | on devices longer than a page the write is flat for all contents, offsets and data, if and only if the page is at most 256 bytes or bytes go singly |
| `Eeprom.CrossingWrite` | common/package/boot/uboot-ipq40xx/src/common/cmd_eeprom.c:256-272 | the write that crosses: two bytes at the end of a larger page |
| `Eeprom.Device.constructor` | common/package/boot/uboot-ipq40xx/src/common/cmd_eeprom.c:200-222 | a device with its contents |
| `Eeprom.Device.I2cWrite` | common/package/boot/uboot-ipq40xx/src/common/cmd_eeprom.c:359-360 | new state: what the device stores, with its counter wrapping in the page |
| `Eeprom.Device.I2cRead` | common/package/boot/uboot-ipq40xx/src/common/cmd_eeprom.c:170-183 | the bytes of one block |
| `Eeprom.Device.Write` | common/package/boot/uboot-ipq40xx/src/common/cmd_eeprom.c:200-374 | new state: the transfers one after the other, and a flat update of the range when the page divides 256 or bytes go singly |
| `Eeprom.Device.Read` | common/package/boot/uboot-ipq40xx/src/common/cmd_eeprom.c:126-189 | a flat slice |
| `Bedbug.OffsetIff` | common/package/boot/uboot-ipq40xx/src/common/bedbug.c:865-879 | a signed distance survives a branch field of any width if and only if it is a multiple of four within reach |
| `Bedbug.OffsetBack` | common/package/boot/uboot-ipq40xx/src/common/bedbug.c:261-275 | every branch field is the encoding of the distance it decodes to |
| `Bedbug.TargetIff` | common/package/boot/uboot-ipq40xx/src/common/bedbug.c:865-879 | a branch target, relative or absolute, is decoded to itself exactly then, with 32-bit wrap-around |
| `Bedbug.SwapTwice` | common/package/boot/uboot-ipq40xx/src/common/bedbug.c:501-501 | exchanging the halves of an SPR number twice gives its low ten bits back |
| `Bedbug.FieldIff` | common/package/boot/uboot-ipq40xx/src/common/bedbug.c:854-918 | an operand is taken exactly when it is accepted, and shown again as written exactly when it fits its field |
| `Bedbug.FieldBack` | common/package/boot/uboot-ipq40xx/src/common/bedbug.c:854-918 | assembling what is shown of a field gives the field back, exactly when an operand can produce it |
| `Bedbug.BranchField` | common/package/boot/uboot-ipq40xx/src/common/bedbug.c:865-879 | the assembled field of a branch, read as a signed number of words, gives the target modulo 2^32: added to memaddr for a relative entry, alone for an absolute one, for every aligned target in reach |
| `Bedbug.BranchShown` | common/package/boot/uboot-ipq40xx/src/common/bedbug.c:261-275 | the disassembled target of a branch field is its signed number of words, added to memaddr for a relative entry, alone for an absolute one |
| `Bedbug.OtherFields` | common/package/boot/uboot-ipq40xx/src/common/bedbug.c:881-917 | what every other kind of operand puts into its field, with the halves of SPR and TBR numbers exchanged, and what it refuses |
| `Bedbug.FirstError` | common/package/boot/uboot-ipq40xx/src/common/bedbug.c:798-834 | assembling fails if and only if operands are missing or one is refused, with the error of the first one |
| `Bedbug.Deposit` | common/package/boot/uboot-ipq40xx/src/common/bedbug.c:826-826 | putting a value into an empty field stores it and changes nothing beside it |
| `Bedbug.FieldsHold` | common/package/boot/uboot-ipq40xx/src/common/bedbug.c:795-828 | every field of the assembled word holds what its operand was encoded to |
| `Bedbug.FixedBits` | common/package/boot/uboot-ipq40xx/src/common/bedbug.c:795-828 | bits outside all operand fields are the opcode's |
| `Bedbug.AssembleThenShow` | common/package/boot/uboot-ipq40xx/src/common/bedbug.c:753-841 | for every entry with disjoint fields: assembling succeeds exactly for enough and accepted operands, and the disassembly repeats exactly the operands that fit |
| `Bedbug.ShowThenAssemble` | common/package/boot/uboot-ipq40xx/src/common/bedbug.c:231-346 | assembling the disassembly of a word gives the word, if and only if its fixed bits are the opcode's and its SPR and TBR fields can be written |
| `Bedbug.Asmppc` | common/package/boot/uboot-ipq40xx/src/common/bedbug.c:785-841 | the loop or-s the operands in from left to right, skipping silent ones |
| `Bedbug.PrintOperands` | common/package/boot/uboot-ipq40xx/src/common/bedbug.c:231-346 | the loop writes a number for every operand that is not silent, and cr2 for the literal |
| `Bedbug.ItemsDenote` | common/package/boot/uboot-ipq40xx/src/common/bedbug.c:231-346 | reading what was written gives the numbers of the disassembly; cr2 reads as 0 |
| `Bedbug.GetOperandValue` | common/package/boot/uboot-ipq40xx/src/common/bedbug.c:373-400 | the field of a listed operand, nothing for another |
| `Floppy.AddressInverts` | common/package/boot/uboot-ipq40xx/src/common/cmd_fdc.c:277-282 | the map from block numbers to track, head and sector is a bijection |
| `Floppy.SameSide` | common/package/boot/uboot-ipq40xx/src/common/cmd_fdc.c:277-282 | blocks that follow on a track side have the same track and head and consecutive sectors |
| `Floppy.DeliveredIsContent` | common/package/boot/uboot-ipq40xx/src/common/cmd_fdc.c:467-480 | what a READ at the first block of a piece delivers is the requested blocks |
| `Floppy.SidesStep` | common/package/boot/uboot-ipq40xx/src/common/cmd_fdc.c:459-462 | a piece ends at the track side or at the end of the request, and the next one begins a side |
| `Floppy.TwentyFifth` | common/package/boot/uboot-ipq40xx/src/common/cmd_fdc.c:490-512 | with 25 transfer errors before enough good READs there is no success |
| `Floppy.Transfer` | common/package/boot/uboot-ipq40xx/src/common/cmd_fdc.c:475-516 | a good READ stores its bytes; an error leaves junk only inside its piece |
| `Floppy.ReadPiece` | common/package/boot/uboot-ipq40xx/src/common/cmd_fdc.c:466-521 | a good READ adds a piece to the blocks held, a failed one keeps them |
| `Floppy.ReadData` | common/package/boot/uboot-ipq40xx/src/common/cmd_fdc.c:428-549 | success means the buffer holds exactly the requested blocks and nothing behind it changed; no READ leaves its track side; when only transfers fail, the call succeeds if and only if enough go right before the 25th error; every fifth error took a recalibration, and every track side and recalibration a seek that went well |
| `Environment.StoredEntry` | common/package/boot/uboot-ipq40xx/src/common/cmd_nvedit.c:531-541 | where the bytes of an entry lie in the blob |
| `Environment.EnvMatch` | common/package/boot/uboot-ipq40xx/src/common/cmd_nvedit.c:609-619 | the value position exactly when the names agree, for a plain name or a name=value text |
| `Environment.EntryEnd` | common/package/boot/uboot-ipq40xx/src/common/cmd_nvedit.c:538-541 | the scan stops at the end of the entry, or at CONFIG_ENV_SIZE when no zero byte comes any more |
| `Environment.CopyOut` | common/package/boot/uboot-ipq40xx/src/common/cmd_nvedit.c:547-559 | new state: the value and a zero, or as much as fits with a zero in the last place |
| `Environment.GetEnvF` | common/package/boot/uboot-ipq40xx/src/common/cmd_nvedit.c:531-564 | new state: the first entry of that name, cut to the buffer; -1 and an untouched buffer if there is none, also when the list runs out at CONFIG_ENV_SIZE |
| `Environment.LookupIsMap` | common/package/boot/uboot-ipq40xx/src/common/cmd_nvedit.c:531-564 | with distinct names the lookup finds every entry under its name |
| `Environment.ApiEnvEnum` | common/package/boot/uboot-ipq40xx/src/api/api.c:513-554 | the first position for NULL, else what follows the first entry of that name: the next entry, NULL at the end of the list, or the position where the list runs out |
| `Environment.EnumeratesIff` | common/package/boot/uboot-ipq40xx/src/api/api.c:513-554 | enumerating a non-empty list from NULL visits each entry once in order and then yields NULL, if and only if the names are distinct |
| `Environment.CutIsLongest` | common/package/boot/uboot-ipq40xx/src/common/cmd_nvedit.c:547-563 | the buffer holds the longest beginning of the value that leaves room for a zero byte, and the count tells whether that is all of it |
| `Debounce.HandleTracks` | 6.18/package/kernel/gpio-button-hotplug/src/gpio-button-hotplug.c:253-297 | one sample keeps level and counter equal to the settled state and the run against it, and reports what the samples say |
| `Debounce.RunReports` | 6.18/package/kernel/gpio-button-hotplug/src/gpio-button-hotplug.c:253-297 | for every sample sequence of a key an event comes exactly where a run of threshold + 1 samples contradicts the settled state |
| `Debounce.EventsAlternate` | 6.18/package/kernel/gpio-button-hotplug/src/gpio-button-hotplug.c:253-297 | events alternate, beginning with "pressed" |
| `Debounce.UnknownIsReleased` | 6.18/package/kernel/gpio-button-hotplug/src/gpio-button-hotplug.c:262-280 | for a key the unknown state at start behaves like "released" |
| `Debounce.SwitchIff` | 6.18/package/kernel/gpio-button-hotplug/src/gpio-button-hotplug.c:262-297 | for a switch the two starts report the same events, if and only if there are at most threshold samples or the first threshold + 1 are pressed |
| `Debounce.Threshold` | 6.18/package/kernel/gpio-button-hotplug/src/gpio-button-hotplug.c:557-561 | the fewest polls that last as long as the debounce interval |
| `Debounce.Button.constructor` | 6.18/package/kernel/gpio-button-hotplug/src/gpio-button-hotplug.c:557-561 | unknown state and threshold |
| `Debounce.Button.HandleButton` | 6.18/package/kernel/gpio-button-hotplug/src/gpio-button-hotplug.c:253-297 | new state and event as specified, with the seconds since the last event |
| `Debounce.Button.Poll` | 6.18/package/kernel/gpio-button-hotplug/src/gpio-button-hotplug.c:318-331 | new state and events over a run of polls, each event with the seconds since the one before it |
| `Debounce.ElapsedIs` | 6.18/package/kernel/gpio-button-hotplug/src/gpio-button-hotplug.c:287-292 | the reported seconds are right for moments less than a counter wrap apart, also across one |
| `Crc8.CalcCrc8` | 6.1/package/kernel/r2ec/src/r2ec.c:60-75 | the nested loops compute the recursive checksum |
| `Crc8.ShiftsKernel` | 6.1/package/kernel/r2ec/src/r2ec.c:69-71 | n > 0 shifts give zero for 0 and 0xD5 only, and an even number always |
| `Crc8.EvenChecksum` | 6.1/package/kernel/r2ec/src/r2ec.c:60-75 | every non-empty message has an even checksum |
| `Crc8.OneByteIff` | 6.1/package/kernel/r2ec/src/r2ec.c:60-75 | messages of any length that differ in one byte have equal checksums if and only if the bytes differ by xor 0xD5 |
| `Crc8.SingleBitCaught` | 6.1/package/kernel/r2ec/src/r2ec.c:60-75 | every single-bit error changes the checksum |
| `Crc8.CheckReceived` | 6.1/package/kernel/r2ec/src/r2ec.c:129-169 | the tests on a received message in their order |
| `Crc8.DamageIff` | 6.1/package/kernel/r2ec/src/r2ec.c:143-146 | one damaged byte goes unnoticed by the checksum if and only if it is a payload byte changed by xor 0xD5 |
| `Crc8.DamageRefused` | 6.1/package/kernel/r2ec/src/r2ec.c:129-169 | one damaged byte in a whole response is accepted if and only if data[3] is not 0xFF and the last byte reads zero or the byte changed by xor 0xD5 |
| `Crc8.SealedPasses` | 6.1/package/kernel/r2ec/src/r2ec.c:129-169 | a sealed message is handed on as it is, and so is one of 1 or 10 bytes; a longer one without data is told by its fourth byte |
| `Crc8.SlippedChecksum` | 6.1/package/kernel/r2ec/src/r2ec.c:149-169 | when the checksum slipped to the front and the last byte reads zero, the body is handed on without it |
| `Crc8.ZeroSeals` | 6.1/package/kernel/r2ec/src/r2ec.c:60-75 | the checksum starts from all ones: it is zero for the single bytes 0xFF and 0x2A only |

## Left out

- MtdRoundTrip.RoundTrip: compares tables up to generated names, because part_parse generates a name from the size and offset before they are resolved.
- MtdRuns.CacheAgreement: mtdids is fixed; parse_mtdids and a change of mtdids in mid-run are not modelled.
- MtdSpread.SpreadTheorem: for chips whose driver can tell bad blocks and whose size and partitions are whole blocks; MtdPlacement.RunPlaced shows that every run leaves such partitions. MtdSpread.SpreadWithoutQuery has the other chips, one partition at a time.
- MtdCommands.MtdParts.MtdpartsInit: mtdids is fixed and known to be well formed; reading it anew is not modelled.
- MtdCommands.MtdParts.FollowPartition: tmp_ep and last_partition hold 16 characters, so longer values of the partition variable are cut there; the model compares them whole.
- MtdCommands.GenerateMtdparts: the buffer is a text that grows; overrunning the nine uncharged bytes of last_parts is not modelled.
- MtdCommands.MtdParts.Add: the device that the C code leaves allocated when a partition is added to an existing device is not modelled.
- MtdCommands.MtdParts.IndexPartitions: where the C code would follow a NULL mtd_part_info, mtddevname is absent.
- MtdSpread.GetLenInclBad: the mask with erasesize - 1 is a remainder, equal for erase sizes that are powers of two.
- FdtCommands.ParseCellArgs: where the arguments end before the closing bracket the C code follows the NULL behind argv; the model fails.
- KermitReceiver.Receiver.Accept: of the parameters of an S packet only the quote character is kept; padding, end of line and the reply text with our own parameters are not modelled.
- KermitReceiver.Receiver.KRecv: the line is a finite input; where it ends the receiver would go on waiting.
- LogCommands.Log.Printk: messages have at most 1020 characters, because the C code copies them into 1024 bytes unchecked; the echo on the console is not modelled.
- LogCommands.Log.constructor: logbuff_init_ptrs finding an old log in memory is not modelled.
- FlashRange.EraseCover: banks are disjoint with ascending sectors, and the request does not run past the top of the address space.
- OneNand.Driver.BlockWrite: requires enough usable blocks, because the C code otherwise loops for ever; out-of-band variants are not modelled, and a block fails the same way every time.
- FdtProp.PropRoundTrip: a value of no bytes prints nothing and is excluded.
- FdtCommands.ShowData: the quotes and commas between shown strings stand for the cut into arguments and are not characters.
- Eeprom.Device.Write: addresses are flat; the device-select bits, bus failures, the X40430 and FRAM variants and SPI are not modelled.
- Bedbug.Asmppc: operands arrive as the numbers their texts denote; get_word, read_number, SPR names and the mnemonic lookup are not modelled, nor is the -1 that parse_operand returns told apart from a field of all ones, which no operand of at most 31 bits gives.
- Bedbug.PrintOperands: commas, parentheses, radix and symbol names are not modelled; registers, addresses, numbers and the literal are.
- Floppy.ReadData: the drive is a sequence of outcomes; motor, interrupts and time-outs are not modelled. Blocks must be addressable in the eight-bit command registers for the contents to be promised.
- Environment.GetEnvF: for blobs of well-formed entries that end with a zero byte or run out at CONFIG_ENV_SIZE; an entry without an equals sign, at which envmatch may read past the end of the name, is not modelled.
- Crc8.CheckReceived: the bus transfer and its retries are inputs.
- addr_spec and abbrev_spec of cmd_flash.c are modelled only for `start +len`; flash_sect_protect has the same bank loop and is left out.
- S-record and ymodem transfer, file systems, bootm images, the hash-table environment, api_storage enumeration, register access, console output and kernel probe code are left out: thin wrappers or code outside these algorithms.
