# Verified model of the Wild linker's byte-level agreements

Wild has many places where two distant pieces of code must agree on every byte: layout reserves what the
writer later fills, an index must answer what a scan would answer, and a rewriter that splices a finished file
must leave every offset pointing at the bytes it pointed at before. This project models those places in Dafny
and proves the agreements for all inputs. Each group of modules below is one such agreement.

- `Bytes`, `Words`, `Uleb`, `Fields`, `Sets`: little-endian integers, tables of words, ULEB128, fixed-width patches,
  set cardinalities.
- `Splice`: an edit list applied in one streaming pass, and the re-mapping of old offsets. Three rewriters
  are of this kind.
- `ElfImage`, `ElfRewrite`: section headers as bytes, and a file whose section table is rewritten while the
  file itself is spliced.
- `LineV5`, `LineRewrite`: DWARF 4 line tables re-emitted in the DWARF 5 format through a shared string pool,
  and the splice of the result into the file.
- `AbbrevTable`, `AbbrevDedup`: the scan of abbreviation tables and their deduplication by content.
- `Compression`: debug sections replaced by compressed ones.
- `EhFrame`: layout's frame chains against the writer's independent filter of the same byte stream.
- `Resolutions`: GOT, PLT and dynamic-relocation accounting, addresses and filling, for one symbol and a run.
- `SysvHash`, `GnuHash`: the two symbol hash tables against a linear search of the definitions.
- `Versions`: version indexes over all shared objects of a link.
- `DynSym`: the dynamic symbol table written by concurrent chunk writers, as a set of stores whose order the
  scheduler picks.
- `Deletions`, `RiscvRelax`: deleted ranges, offset translation, symbol sizes, and one RISC-V relaxation pass.
- `RiscvAttributes`: the `.riscv.attributes` size, writer and parser.
- `LinkCache`: the incremental-link cache codec, the signature verdict and the dirty report.

Code that works step by step is modelled by methods with loops over arrays, growing buffers and class fields.
Each is proved against a specification function on values, and the results below are about those functions.

The parts of the source that a property depends on but that belong to other crates are parameters: the
compressor and its inverse, the symbol hash functions, the symbol resolver, the effect of applying relocations
to an `.eh_frame` entry, and the notion of valid UTF-8. Section headers, line-program headers and version
definitions are taken as records that the parsing crates produced.

## Where the code does not do what is expected of it

Each of these is stated as an exact condition in the model, with the code kept as it is, and shown at a concrete input
where one is small enough to write down.

- `.shstrtab` starting exactly where `.debug_line` ends: the new header of `.shstrtab` leads to the inserted strings
  (`LineRewrite.NamesHeaderExact`, `LineRewrite.NamesAtLineEndAreLost`). A `.shstrtab` that ends exactly where
  `.debug_line` starts makes the rewrite fail (`LineRewrite.SucceedsExactly`, `LineRewrite.NamesEndAtLineFails`).
- A unit whose line table is not version 4 keeps its old offset into a section that no longer holds its table
  (`LineRewrite.PatchedIsVersion4`, `LineRewrite.OtherVersionsAreStranded`).
- A thread-local that resolves to zero in a shared object reserves a relocation that is not written
  (`Resolutions.RunIsExact`, `Resolutions.UndefinedOffsetLeavesRoom`).
- A linker-script definition writes no version word, so later definitions of its chunk get their neighbour's
  slot (`DynSym.SlotIsOwn`, `DynSym.ScriptShiftsItsNeighbour`).
- Version indexes from 0x8000 on are lost by a loader, which masks the version word; the source only fails at 0x10000
  (`Versions.LoaderFindsAllExactly`).
- The alignment after an `R_RISCV_ALIGN` is computed from the sled's length. A request for twice the smallest
  instruction is computed as half of it, so it is met only by chance (`RiscvRelax.RequestIsMet`,
  `RiscvRelax.SmallRequestIsNotMet`); a larger one is met exactly when the sled is as long as the gap at its output
  place (`RiscvRelax.LargeRequest`, `RiscvRelax.MixedSizesAreNotAligned`).
- The size of a symbol that starts or ends strictly inside a deletion is wrong unless both ends overshoot
  equally (`Deletions.SizeCountsSurvivors`, `Deletions.EndInsideIsWrong`).
- The comment on `hi20_fits_clui` promises the range [-32, -1] as well, but the shift is unsigned: exactly the negative
  half is never found (`RiscvRelax.FitsCluiExactly`, `RiscvRelax.NegativeUpperIsMissed`).
- Architecture extensions with a two-digit version are not read back (`RiscvAttributes.ExtReadsBack`, `RiscvAttributes.TwoDigitsAreLost`).
- A cache path that is not UTF-8 is stored under another name, one entry too long to store makes the whole cache
  unreadable, and a link that has the other name as its input is taken for the cached one (`LinkCache.RoundTrip`,
  `LinkCache.SkipsOnlyUnchanged`, `LinkCache.OtherStateMatches`).

## Model

| member | source | states |
|---|---|---|
| Bytes.FromToLe | libwild/src/elf_line_v5.rs:346-352 | little-endian fields of any width read back the value written, when it fits the width |
| Uleb.Write | libwild/src/elf_line_v5.rs:290-300 | the byte-pushing loop appends exactly the ULEB128 encoding |
| Uleb.ReadU64 | libwild/src/elf_line_v5.rs:290-300 | every 64-bit value is read back from its encoding, whatever follows, consuming exactly its bytes |
| Words.WordReadsBack | libwild/src/elf_writer.rs:3827-3834 | a word table stored as bytes reads back word by word |
| Splice.Stream | libwild/src/elf_line_v5.rs:540-552 | the cursor loop fails exactly when an edit starts before the cursor, and otherwise outputs the spliced file |
| Splice.MapOffset | libwild/src/elf_line_v5.rs:393-405 | the running-delta loop computes the offset map, in both modes |
| Splice.WindowLands | libwild/src/elf_line_v5.rs:393-405 | a window of old bytes that no edit touches is found, whole, at its `After` offset in the spliced file |
| Splice.SurvivorLands | libwild/src/elf_line_v5.rs:393-405 | every surviving byte is at its `After` offset in the spliced file |
| Splice.AfterIsMonotone | libwild/src/elf_line_v5.rs:393-405 | `After` offsets of surviving bytes are strictly increasing, for sorted disjoint edits |
| Splice.InsertLands | libwild/src/elf_line_v5.rs:378-405 | each insert starts at its own `Before` offset, when no two edits share a position |
| Splice.OriginIsReal | libwild/src/elf_line_v5.rs:540-552 | every byte of the new file is a surviving old byte or a byte of one insert: nothing else is in it |
| Splice.OriginOfSurvivor | libwild/src/elf_line_v5.rs:540-552 | the new byte at a survivor's `After` offset comes from that survivor and no other |
| Splice.OriginOfInsert | libwild/src/elf_line_v5.rs:540-552 | every insert byte is the origin of the new byte at its place: survivors and inserts tile the file |
| Splice.PatchCommutes | libwild/src/elf_line_v5.rs:479-486 | patching old bytes that survive and then splicing equals splicing and patching at the moved place |
| Splice.InsertKeepsOrder | libwild/src/elf_line_v5.rs:528 | a stable sort by position keeps a disjoint edit list ordered when one more disjoint edit is put in |
| ElfImage.HeaderRoundTrip | libwild/src/compression.rs:261-277 | a section header decodes from its encoded bytes to itself when its fields fit their widths |
| ElfImage.WriteTable | libwild/src/elf_line_v5.rs:566-596 | the header loop stores the whole section table in place and changes nothing else |
| ElfRewrite.ReheadCommutes | libwild/src/compression.rs:252-281 | rewriting the table inside the spliced file equals splicing the file with the table rewritten |
| ElfRewrite.RewrittenWindow | libwild/src/compression.rs:205-281 | every untouched window outside the table is at its mapped place after splice and header rewrite |
| ElfRewrite.RewrittenInsert | libwild/src/compression.rs:208-214 | every insert is at its mapped place after splice and header rewrite |
| ElfRewrite.RewrittenIsImage | libwild/src/compression.rs:252-281 | the result is a file whose ELF header leads to the new table |
| LineV5.InternIsSound | libwild/src/elf_line_v5.rs:102-112 | interning keeps every earlier string at its offset and stores the new one NUL-terminated at its own |
| LineV5.LineStrPool.Intern | libwild/src/elf_line_v5.rs:103-112 | the mutable pool changes exactly as the specification and returns the offset of the string |
| LineV5.UnitBytesStable | libwild/src/elf_line_v5.rs:302-353 | the bytes of a unit do not change however many strings are interned later |
| LineV5.EmitDirs | libwild/src/elf_line_v5.rs:323-329 | the directory loop appends the references of all directories while the pool grows |
| LineV5.EmitFiles | libwild/src/elf_line_v5.rs:336-344 | the file loop appends path reference and directory number of every file while the pool grows |
| LineV5.EmitHeader | libwild/src/elf_line_v5.rs:310-344 | the header body appended is the version 5 header of the unit |
| LineV5.EmitUnit | libwild/src/elf_line_v5.rs:302-353 | placeholder, append and back-patch produce the whole unit with both length fields right |
| LineV5.EmitAll | libwild/src/elf_line_v5.rs:121-131 | the new section, its string section and the offset recorded for each unit |
| LineV5.EveryUnitDecodes | libwild/src/elf_line_v5.rs:121-131 | a DWARF 5 reader at each recorded offset, with the final string pool, gets that unit's parameters, directories, files and its own program bytes |
| LineV5.NumbersKeepTheirMeaning | libwild/src/elf_line_v5.rs:323-344 | every version 4 file number k >= 1 and directory number d >= 0 resolves to the same path in version 5 |
| LineRewrite.SucceedsExactly | libwild/src/elf_line_v5.rs:511-552 | on a well laid out file the three edits apply if and only if `.shstrtab` does not end where `.debug_line` starts |
| LineRewrite.NamesEndAtLineFails | libwild/src/elf_line_v5.rs:541-547 | a concrete valid file on which the edits are reported as overlapping |
| LineRewrite.ApplyRewrite | libwild/src/elf_line_v5.rs:407-619 | the method returns exactly the specified file, or fails exactly when the edits do not apply |
| LineRewrite.ResultIsImage | libwild/src/elf_line_v5.rs:566-616 | the ELF header leads to a table of all old entries, updated, and one for `.debug_line_str` |
| LineRewrite.OtherSectionKept | libwild/src/elf_line_v5.rs:586-595 | every other section's new header names its old bytes, patched where a unit's offset field was patched |
| LineRewrite.LineReplaced | libwild/src/elf_line_v5.rs:580-582 | the new `.debug_line` header names exactly the new line tables |
| LineRewrite.StringsAdded | libwild/src/elf_line_v5.rs:597-614 | the added header names exactly the string pool |
| LineRewrite.NamesStored | libwild/src/elf_line_v5.rs:511-527 | the old section names followed by the new one are stored where the old names' start maps |
| LineRewrite.NamesHeaderExact | libwild/src/elf_line_v5.rs:557-585 | the `.shstrtab` header has the right size, and the right offset if and only if no strings are inserted at its start |
| LineRewrite.NamesAtLineEndAreLost | libwild/src/elf_line_v5.rs:557-585 | a concrete valid file whose new `.shstrtab` header leads to the inserted strings instead of the names |
| LineRewrite.LoadedBytesStay | libwild/src/elf_line_v5.rs:493-510 | every window before the first edit that touches no patched field and neither of the ELF header's two table fields keeps its offset and content |
| LineRewrite.UnitFindsItsProgram | libwild/src/elf_line_v5.rs:115-144 | end to end: decoding the final file's `.debug_line` at each unit's patched offset field gives that unit's line table |
| LineRewrite.SelectUnits | libwild/src/elf_line_v5.rs:183-185 | the version test keeps exactly the units of version 4, in order |
| LineRewrite.PatchedIsVersion4 | libwild/src/elf_line_v5.rs:183-185 | a unit's offset field is patched if and only if its line table has version 4 |
| LineRewrite.Version4Survives | libwild/src/elf_line_v5.rs:115-144 | in a file of mixed versions every unit of version 4 finds its own line table at its patched offset |
| LineRewrite.OtherVersionsAreStranded | libwild/src/elf_line_v5.rs:183-185 | a unit of another version keeps its old offset bytes, and the section they point into holds the version 4 tables only |
| AbbrevTable.ScanTable | libwild/src/elf_abbrev_dedup.rs:252-281 | the scanning loops compute the length of a table up to its terminator, or fail on the same malformed inputs |
| AbbrevTable.ReadUlebLoop | libwild/src/elf_abbrev_dedup.rs:283-299 | the shift-and-or loop computes value and length, and fails past 64 bits of shift |
| AbbrevTable.SkipLebLoop | libwild/src/elf_abbrev_dedup.rs:301-313 | the skipping loop computes the length of a signed payload or fails when it is too long |
| AbbrevTable.TableEndLocal | libwild/src/elf_abbrev_dedup.rs:252-281 | a table copied elsewhere scans to the same length: the scan reads nothing outside the table |
| Fields.PatchLoop | libwild/src/elf_abbrev_dedup.rs:207-211 | the patch loop stores every field value at its place and nothing else |
| Fields.PatchAllAtField | libwild/src/elf_line_v5.rs:479-486 | after patching all fields of a section each field holds its own value |
| AbbrevDedup.WalkUnits | libwild/src/elf_abbrev_dedup.rs:124-160 | the unit walk finds each offset field and its value, and stops, skips or fails on the same headers |
| AbbrevDedup.CollapseTables | libwild/src/elf_abbrev_dedup.rs:165-196 | the two loops give the deduplicated section and the map from old to new offsets, or skip the pass |
| AbbrevDedup.MovedTableScans | libwild/src/elf_abbrev_dedup.rs:185-196 | at its new offset every referenced table scans to the very bytes it had at its old offset |
| AbbrevDedup.EqualTablesShare | libwild/src/elf_abbrev_dedup.rs:185-196 | two offsets are moved to one offset if and only if their tables are equal |
| AbbrevDedup.UnitsShareExactlyEqualTables | libwild/src/elf_abbrev_dedup.rs:165-211 | two units end with one offset if and only if their tables were equal |
| AbbrevDedup.UnitFindsItsTable | libwild/src/elf_abbrev_dedup.rs:202-246 | in the final file, the patched offset of every visited unit leads to the table it had before, byte for byte, wherever the two sections lie |
| AbbrevDedup.AbbrevReplaced | libwild/src/elf_abbrev_dedup.rs:213-235 | the `.debug_abbrev` header names exactly the deduplicated section |
| AbbrevDedup.OtherSectionKept | libwild/src/elf_abbrev_dedup.rs:237-240 | every other section's header names its old (patched) bytes |
| AbbrevDedup.ResultIsImage | libwild/src/elf_abbrev_dedup.rs:221-244 | the ELF header leads to the rewritten table, before or after the removed bytes |
| AbbrevDedup.ResultShrinks | libwild/src/elf_abbrev_dedup.rs:197-217 | the file shrinks by exactly the bytes saved, and strictly |
| AbbrevDedup.ShiftTail | libwild/src/elf_abbrev_dedup.rs:213-217 | copy-within, overwrite and truncate equal the splice of one edit |
| AbbrevDedup.DedupBuffer | libwild/src/elf_abbrev_dedup.rs:69-247 | the method rewrites, skips or fails exactly as specified and returns the specified file |
| AbbrevDedup.UnmovedTable | libwild/src/elf_abbrev_dedup.rs:224-244 | when the section table lies before the removed bytes the ELF header needs no rewrite |
| AbbrevDedup.SmallProceeds | libwild/src/elf_abbrev_dedup.rs:69-247 | a concrete valid file that is rewritten |
| Compression.CollectPlans | libwild/src/compression.rs:128-202 | selection, the size test and the sort give the chosen sections in file order |
| Compression.SplicePlans | libwild/src/compression.rs:205-217 | the copying loop outputs the spliced file |
| Compression.ShiftIsMap | libwild/src/compression.rs:219-231 | subtracting `shift_at` is the offset map of the splice for every offset that is in no compressed section |
| Compression.ShiftOf | libwild/src/compression.rs:222-231 | the summing loop computes the shift |
| Compression.UntouchedSectionKept | libwild/src/compression.rs:265-269 | every section that was not compressed keeps its bytes at its shifted offset |
| Compression.CompressedSectionStored | libwild/src/compression.rs:270-277 | every compressed section is its header and stream exactly where its header says, smaller, flagged, with alignment 1 |
| Compression.CompressedSectionReadsBack | libwild/src/compression.rs:290-296 | with any codec that inverts, a reader gets the old payload, its size and its alignment |
| Compression.ResultShrinks | libwild/src/compression.rs:204-217 | the file shrinks by exactly the sum of the savings, which is positive |
| Compression.ResultIsImage | libwild/src/compression.rs:233-281 | the ELF header leads to the rewritten section table |
| Compression.CompressInBuffer | libwild/src/compression.rs:116-288 | the method returns the specified file, or nothing exactly when no section is worth compressing |
| Compression.SmallIsCompressed | libwild/src/compression.rs:116-288 | a concrete valid file and an inverting codec with a section that is compressed |
| EhFrame.ParseFrames | libwild/src/elf.rs:2500-2590 | the parsing loop gives the frames, the last frame of each section, the CIE bytes and the trailing bytes of the specified layout |
| EhFrame.SectionFrames | libwild/src/elf.rs:2605-2639 | following the links of a section terminates and gives the count and bytes of its chain |
| EhFrame.LayoutIsThreaded | libwild/src/elf.rs:2573-2584 | each frame links to the previous frame of its own section, and each section's entry is its newest frame |
| EhFrame.ChainVisits | libwild/src/elf.rs:2608-2614 | the chain of a section visits exactly its frames, newest first |
| EhFrame.ChainsPartition | libwild/src/elf.rs:2573-2614 | chains strictly decrease and every frame is on the chain of its own section and no other |
| EhFrame.LoadedTotalIs | libwild/src/elf.rs:1023-1050 | loading sections in any order, each at most once, sums to the frames of the loaded sections |
| EhFrame.SeenIsFirst | libwild/src/elf.rs:2557-2571 | layout's last pc-begin relocation and the writer's first relocation name the same section |
| EhFrame.FilterMatchesLayout | libwild/src/elf_writer.rs:2265-2299 | the entries the writer keeps are exactly the CIEs and the frames of loaded sections, in bytes and in number |
| EhFrame.ReservedIsKept | libwild/src/elf.rs:546-558 | bytes and header entries reserved equal bytes and header entries kept, for every stream and every set of loaded sections |
| EhFrame.ReservedIsExactlyFilled | libwild/src/elf_writer.rs:2348-2407 | a successful write fills exactly the reserved bytes |
| EhFrame.KeptFdeFindsItsCie | libwild/src/elf_writer.rs:2277-2353 | the rewritten pointer of every kept FDE leads back to the copied bytes of the CIE it named in the input |
| EhFrame.TableNamesKeptFdes | libwild/src/elf_writer.rs:2320-2338 | one search-table entry is taken for each kept FDE, in order, and it names the place where that FDE was put |
| EhFrame.WriteFrames | libwild/src/elf_writer.rs:2244-2412 | the filtering loop succeeds exactly when the specification does and the buffer is large enough, and writes exactly its output |
| Resolutions.PartMap.AllocateResolution | libwild/src/elf.rs:1403-1463 | what is added to every part for one symbol |
| Resolutions.PartMap.CreateResolution | libwild/src/elf.rs:1571-1623 | the addresses given to one symbol and how far the offsets advance |
| Resolutions.TableWriter.WriteAddressRelocation | libwild/src/elf_writer.rs:1050-1083 | an entry in one of the two address tables, and the value that belongs at the place; fails exactly when that table is full |
| Resolutions.TableWriter.ProcessTlsOffset | libwild/src/elf_writer.rs:775-817 | the slot and relocation due for a thread-pointer offset, or failure |
| Resolutions.TableWriter.ProcessTlsModule | libwild/src/elf_writer.rs:819-857 | the two slots and relocations due for module and offset, or failure |
| Resolutions.TableWriter.ProcessTlsDescriptor | libwild/src/elf_writer.rs:859-889 | the two slots and the relocation due for a descriptor, or failure in a static executable |
| Resolutions.TableWriter.ProcessResolution | libwild/src/elf_writer.rs:686-773 | appends exactly what is due for a resolution, slot by slot in address order, and fails exactly when something is refused or does not fit |
| Resolutions.Accounting | libwild/src/elf_writer.rs:686-889 | for every flag combination and output kind, bytes written for a symbol equal bytes reserved, but for one relocation in one named case, and slots filled equal slots assigned |
| Resolutions.RunAccounting | libwild/src/elf_writer.rs:917-972 | the same over any sequence of symbols |
| Resolutions.NoRelrNeeded | libwild/src/elf_writer.rs:673-675 | when no RELR bytes are reserved, writing without a RELR table needs the same bytes |
| Resolutions.DueIsRefused | libwild/src/elf_writer.rs:686-889 | what is due for a symbol is refused exactly for three kinds of symbols, told by their flags, value and index before the run |
| Resolutions.RunIsRefused | libwild/src/elf_writer.rs:686-889 | a run is refused exactly when one of its symbols is |
| Resolutions.RunIsExact | libwild/src/elf_writer.rs:917-972 | a run ends with every table exactly full if and only if no symbol is of a refused kind and none is an undefined thread-local offset in a shared object |
| Resolutions.WriteTables | libwild/src/elf_writer.rs:917-972 | both layout passes and the writer over any symbols: success under exactly that condition on the symbols, with all due entries written and no room left |
| Resolutions.UndefinedOffsetLeavesRoom | libwild/src/elf_writer.rs:788-793 | a concrete symbol for which one relocation is reserved and none is written |
| Resolutions.SlotIsAtItsAddress | libwild/src/elf.rs:1598-1618 | in the filled tables the slot at each address a symbol owns holds what is due for that slot's use |
| Resolutions.DirectAccessor | libwild/src/elf.rs:4871-4877 | for plain and ifunc symbols the accessor names the slot references must use: the PLT-address slot when there is one |
| Resolutions.AccessorsNameTheirSlots | libwild/src/elf.rs:4871-4908 | for every combination of thread-local models each accessor names the first slot of its own model, and the second slot of a pair follows |
| SysvHash.Fill | libwild/src/elf_writer.rs:3838-3863 | the loop over the definitions leaves buckets and chains that index them |
| SysvHash.WriteSysvHash | libwild/src/elf_writer.rs:3797-3866 | the section's bytes: reserved size, fails exactly on no definitions or more symbols than 32 bits |
| SysvHash.OneMore | libwild/src/elf_writer.rs:3845-3862 | one turn of the loop keeps heads, links and last entries right |
| SysvHash.ChainIsBucket | libwild/src/elf_writer.rs:3856-3862 | from every bucket the chain ends at 0 and visits exactly that bucket's definitions in order |
| SysvHash.MembersAreExact | libwild/src/elf_writer.rs:3853-3854 | those are the symbols hashing to the bucket, each once, strictly increasing |
| SysvHash.Lookup | libwild/src/elf_writer.rs:3797-3866 | a loader's lookup in the written bytes agrees with a linear search for every name, defined or not |
| GnuHash.Fill | libwild/src/elf_writer.rs:3897-3935 | the loop leaves the specified bloom words, bucket heads and chain words |
| GnuHash.WriteGnuHash | libwild/src/elf_writer.rs:3868-3937 | on definitions sorted by bucket the table written indexes them |
| GnuHash.WriteGnuSection | libwild/src/elf.rs:3941-3951 | the section's bytes hold that table and have exactly the reserved size |
| GnuHash.TestBloom | libwild/src/elf_writer.rs:3911-3918 | the filter test on the section's bytes is the filter test on the table's bits |
| GnuHash.BloomBits | libwild/src/elf_writer.rs:3911-3918 | the filter's bits are exactly those that some definition sets |
| GnuHash.NeverRejects | libwild/src/elf_writer.rs:3911-3918 | the filter never rejects a defined name |
| GnuHash.BucketIsRun | libwild/src/elf_writer.rs:3920-3933 | each bucket points at the full run of its definitions, ended by the low bit; an empty one holds 0 |
| GnuHash.Lookup | libwild/src/elf_writer.rs:3868-3937 | a loader's lookup in the section's bytes, through header, filter, bucket and run, agrees with a linear search for every name |
| Versions.MarkNeeded | libwild/src/elf.rs:2353-2371 | the versions marked are exactly those of loaded symbols; fails exactly on an undefined version |
| Versions.CountsAgree | libwild/src/elf.rs:2387-2435 | counting needed definitions equals counting marks, for any order of distinct definition indexes |
| Versions.FinaliseSizes | libwild/src/elf.rs:2373-2448 | the loop gives count, string bytes and section bytes, or fails exactly on a needed definition without a name |
| Versions.ComputeVersionMapping | libwild/src/elf.rs:2673-2686 | the loop gives every needed version the first index plus the number of needed versions before it |
| Versions.MappingIsInjective | libwild/src/elf.rs:2673-2686 | needed versions get distinct indexes within the object's own range |
| Versions.AssignIndexes | libwild/src/elf.rs:2450-2467 | the ranges follow each other; fails exactly when they leave 16 bits |
| Versions.WriteVerneed | libwild/src/elf_writer.rs:5179-5262 | the link, the entries, the file name and the strings written for one object |
| Versions.WrittenIsReserved | libwild/src/elf_writer.rs:5203-5260 | entries and name bytes written equal those counted by layout |
| Versions.LinksLeadOn | libwild/src/elf_writer.rs:5190-5195 | the link of a record that is not the last leads to the start of the next object's record |
| Versions.LinksEnd | libwild/src/elf.rs:588-589 | the link of the last record is 0 |
| Versions.LinkVersions | libwild/src/elf.rs:2353-2467 | the whole path succeeds exactly when all versions exist, are named and fit, and every object fills its reserved bytes |
| Versions.ImportedVersionIsUnique | libwild/src/elf_writer.rs:5317-5336 | every imported version gets an index above the global one and above every script-defined one, carried by exactly one entry of the whole file, in the symbol's own object, with its version's name |
| Versions.LargestIndexIsUsed | libwild/src/elf.rs:2673-2686 | some imported symbol gets the largest index of the link |
| Versions.LoaderFindsAllExactly | libwild/src/elf.rs:2461-2465 | every imported symbol's index survives the loader's 15-bit mask if and only if the indexes end at or below 0x8000 |
| DynSym.DynsymWriter.WriteStr | libwild/src/elf_writer.rs:5353-5365 | the string and its terminator are stored at the writer's place and the offset returned is theirs |
| DynSym.DynsymWriter.WriteDefinition | libwild/src/elf_writer.rs:1323-1397 | name, entry and version word of one definition are stored; fails exactly when a part is full |
| DynSym.TakePrefix | libwild/src/elf_writer.rs:1176-1189 | the new writer owns exactly the part for its definitions and the old one continues after it |
| DynSym.WriteDefinitions | libwild/src/elf_writer.rs:3939-4016 | taking a prefix per chunk and writing it performs the stores of all chunk programs |
| DynSym.ProgramWithin | libwild/src/elf_writer.rs:1431-1441 | a writer stores to each place at most once and stays between its start and end |
| DynSym.ChunksWithin | libwild/src/elf_writer.rs:3944-3948 | no two chunk writers store to the same place |
| DynSym.ChunksAreSequential | libwild/src/elf_writer.rs:3939-3948 | for every chunk size the chunks' symbol and string stores are those of one sequential writer; all stores are, without linker-script definitions |
| DynSym.AnyScheduleIsSequential | libwild/src/elf_writer.rs:3939-4016 | in whatever order single stores of all chunks take effect, the sections end as one sequential writer leaves them |
| DynSym.NamesResolve | libwild/src/elf_writer.rs:5356-5365 | after any schedule entry i holds definition i and its name offset leads to its NUL-terminated name |
| DynSym.VersionIsAtSlot | libwild/src/elf_writer.rs:3949-3999 | the slot that receives a definition's version, for every chunk size |
| DynSym.SlotIsOwn | libwild/src/elf_writer.rs:3982-3996 | that slot is the definition's own if and only if no earlier definition of its chunk comes from a linker script |
| DynSym.ScriptShiftsItsNeighbour | libwild/src/elf_writer.rs:3982-3996 | two concrete definitions, of which the second's version lands in the slot of the first, which comes from a linker script |
| Deletions.CopySection | libwild/src/elf_writer.rs:1913-1945 | the copy loop outputs exactly the input without the deleted ranges, then zeros |
| Deletions.SurvivorIsAt | libwild/src/elf_writer.rs:1919-1942 | every surviving byte is at its offset less the deleted bytes before it |
| Deletions.TranslationCounts | linker-utils/src/relaxation.rs:144-163 | the translation subtracts the deleted bytes before an offset and the rest of a deletion it is strictly inside of |
| Deletions.SurvivorTranslates | linker-utils/src/relaxation.rs:144-163 | a surviving byte is copied to the place its offset translates to |
| Deletions.TranslationKeepsOrder | linker-utils/src/relaxation.rs:144-163 | translation keeps the order of offsets that are not strictly inside a deletion, strictly after a surviving byte |
| Deletions.SizeCountsSurvivors | libwild/src/elf_writer.rs:2028-2038 | an adjusted symbol size counts the surviving bytes if and only if both ends overshoot deletions equally, in particular when neither is strictly inside one |
| Deletions.EndInsideIsWrong | libwild/src/elf_writer.rs:2028-2038 | a concrete symbol whose adjusted size is too small |
| Deletions.CumulativeDeltas | linker-utils/src/relaxation.rs:54-72 | the running totals are the sums of the deletions so far |
| RiscvRelax.CollectDeltas | libwild/src/elf_riscv64.rs:387-505 | the loop with its pending call and pending high part gives the specified deletions and the smallest margin |
| RiscvRelax.MarginIsLeast | libwild/src/elf_riscv64.rs:469-496 | the margin is that of some candidate left unrelaxed and no candidate has a smaller one; there is none exactly without candidates |
| RiscvRelax.CallMarginIsEnough | libwild/src/elf_riscv64.rs:469-477 | a call whose target comes closer by its margin is in range |
| RiscvRelax.Hi20MarginIsLeast | libwild/src/elf_riscv64.rs:484-496 | a `lui` fits a compressed one exactly when its value falls by at least its margin, in whole pages |
| RiscvRelax.FitsCluiExactly | linker-utils/src/riscv64.rs:94-104 | the test finds exactly upper parts 1 to 31; it differs from the range its comment names exactly on the negative half |
| RiscvRelax.NegativeUpperIsMissed | linker-utils/src/riscv64.rs:94-104 | a concrete address in the named range that is not found |
| RiscvRelax.CollectedIsWellFormed | libwild/src/elf_riscv64.rs:387-505 | the deletions of a pass are ascending, non-overlapping, non-empty and inside the section |
| RiscvRelax.SledOffsets | libwild/src/elf_riscv64.rs:402-443 | where the start, the kept bytes and the end of an alignment sled go, with every other deletion of the pass counted |
| RiscvRelax.CodeIsAligned | libwild/src/elf_riscv64.rs:426-441 | the code after a sled lands on the alignment computed from the sled's length if and only if the sled is as long as the gap at its output place |
| RiscvRelax.PowerOfTwoIsEnough | libwild/src/elf_riscv64.rs:426-441 | a sled whose length is a power of two always reaches the alignment computed from it, its own length |
| RiscvRelax.ShortSledIsEnough | libwild/src/elf_riscv64.rs:426-441 | it does whenever the sled is short of the alignment by a divisor of the alignment and of the place |
| RiscvRelax.ComputedAlignment | libwild/src/elf_riscv64.rs:430 | for a sled of the requested alignment less the smallest instruction, the computed alignment is the requested one, but for a request of twice the smallest instruction |
| RiscvRelax.LargeRequest | libwild/src/elf_riscv64.rs:426-441 | a larger request is met if and only if the sled is as long as the gap |
| RiscvRelax.RequestIsMet | libwild/src/elf_riscv64.rs:426-441 | at a place that is a multiple of the smallest instruction every larger request is met, and a request of twice that size only where the place is aligned already |
| RiscvRelax.SmallRequestIsNotMet | libwild/src/elf_riscv64.rs:426-441 | a concrete request for four bytes that is not met where instructions have two |
| RiscvRelax.MixedSizesAreNotAligned | libwild/src/elf_riscv64.rs:426-441 | a concrete sled of four-byte NOPs after a compressed instruction that is too short |
| RiscvRelax.PaddingIsKept | libwild/src/elf_writer.rs:2677-2684 | the number of padding bytes is the number of sled bytes that survive |
| RiscvRelax.PaddingCoversKeptBytes | libwild/src/elf_writer.rs:2677-2684 | the kept sled bytes land at the start of the padded range in order, as many as are padded; the NOPs fill the range if and only if its length is even |
| RiscvRelax.PaddingHoldsOnlyTheSled | libwild/src/elf_writer.rs:2677-2684 | a surviving byte of the section lands in the padded range if and only if it is a kept byte of that sled |
| RiscvRelax.FillNopPadding | libwild/src/elf_riscv64.rs:154-167 | the loop stores the NOPs over the range and leaves all other bytes |
| RiscvAttributes.ExtReadsBack | libwild/src/elf.rs:3554-3574 | an extension is read back if and only if both versions are single digits |
| RiscvAttributes.TwoDigitsAreLost | libwild/src/elf.rs:3554-3574 | a concrete extension that is read back under another name, and one that is refused |
| RiscvAttributes.SplitJoin | libwild/src/elf.rs:3174-3181 | splitting the joined extensions gives them back |
| RiscvAttributes.ArchReadsBack | libwild/src/elf.rs:3554-3577 | an architecture string is read back if and only if it has extensions and only single-digit versions |
| RiscvAttributes.WritesReservedSize | libwild/src/elf.rs:3478-3520 | the bytes written equal the precomputed section size for every non-empty list |
| RiscvAttributes.WriteSection | libwild/src/elf_writer.rs:3743-3795 | the writer loop produces the specified section, and fails exactly when the buffer is smaller |
| RiscvAttributes.ParseSection | libwild/src/elf.rs:3522-3616 | the parsing loop gives the specified attributes or fails |
| RiscvAttributes.AttrReadsBack | libwild/src/elf.rs:3545-3611 | each kind of attribute is read back with the rest left over, if and only if it is readable |
| RiscvAttributes.SectionRoundTrip | libwild/src/elf.rs:3522-3616 | parsing the written section gives the attributes back if and only if every one is readable |
| RiscvAttributes.LengthsAreExact | libwild/src/elf_writer.rs:3749-3762 | both length fields name exactly the bytes they cover |
| LinkCache.EntryReadsBack | libwild/src/incremental_cache.rs:490-537 | an entry of either kind is read back, consuming exactly its bytes |
| LinkCache.EntriesReadBack | libwild/src/incremental_cache.rs:490-537 | all entries are read back when all were written; one that was skipped makes the reader run out of bytes |
| LinkCache.WriteLinkCache | libwild/src/incremental_cache.rs:555-598 | the writer produces the specified file and fails exactly on a version string that is too long |
| LinkCache.ReadLinkCache | libwild/src/incremental_cache.rs:459-544 | the cursor loop gives the specified cache or none |
| LinkCache.RoundTrip | libwild/src/incremental_cache.rs:555-606 | reading a written cache gives the same cache if and only if all paths are UTF-8 and fit 16 bits, and none if one does not fit |
| LinkCache.ClassifySignature | libwild/src/incremental_cache.rs:687-709 | a full match means exactly equal version, argument hash and input map; the other verdicts name a difference that is there |
| LinkCache.NextVerdict | libwild/src/incremental_cache.rs:687-709 | write, read back and classify: a full match exactly for equal version and argument hash and the map in which every path is replaced by its text, when all paths fit |
| LinkCache.TextIsTheMap | libwild/src/incremental_cache.rs:578-579 | that map is the one that was written if and only if all paths are UTF-8 |
| LinkCache.SkipsOnlyUnchanged | libwild/src/incremental_cache.rs:687-709 | a state that matches the stored cache is the state that was written if and only if all paths are UTF-8 |
| LinkCache.OtherStateMatches | libwild/src/incremental_cache.rs:578-579 | a concrete state that was never written and matches |
| LinkCache.ClassifyDirty | libwild/src/incremental_cache.rs:632-652 | dirty paths are listed once each, and the three counts are exact |
| LinkCache.CleanIsEqual | libwild/src/incremental_cache.rs:632-652 | nothing dirty and nothing orphaned means exactly that the maps are equal |

## Left out

- GnuHash.WriteGnuHash: the definitions must already be sorted by bucket; the source's parallel sort is a library call, and the tie-break by name does not matter to the result.
- EhFrame.KeptFdeFindsItsCie: for sections below 4 GiB less 16 bytes, since the pointers have 32 bits.
- EhFrame.ReservedIsExactlyFilled: relocations of an FDE are sorted and none lies before its pc-begin field, and sections are loaded after the parse and at most once each.
- EhFrame.WriteFrames: the two addresses of a search-table entry and their 32-bit overflow failures, because they are sums of addresses that are no part of the byte stream.
- LineV5.EveryUnitDecodes: line sections and string pools below 4 GiB, and paths without NUL bytes.
- LinkCache.ClassifySignature: the walk stops at the first difference found, so which of the two input verdicts is given depends on the map's order.
- RiscvRelax.CollectDeltas: one pass with no deletions from earlier passes, because the claims are about a single pass.
- Versions.WriteVerneed: names stay names, since the string table they are written to is the one of `DynSym`, and their hash field, a function of the name, is not stored.
- Files, memory maps, sockets, threads and the daemon; file-kind detection, argument parsing, diagnostics and timing.
- The compressor, BLAKE3, gimli, the object crate and UTF-8 decoding: parameters or given records. The symbol hash functions are arbitrary functions.
- Section headers are found by index rather than by name; the name lookups of the rewriters are not modelled.
- The three rewriters one after another: each is proved on its own buffer, because the line upgrade reads the whole buffer and not the effective length left by the pass before it.
- 32-bit truncation of offsets and sizes in the rewriters: sections and pools of 4 GiB or more are outside the stated preconditions.
- Program headers beyond the check that loaded content ends before the edited bytes.
- Rewriters that would grow the output are skipped by their callers; that last comparison is not modelled.
- Relocations inside `.eh_frame` entries: applying one is any function that keeps the entry's length and its first eight bytes.
- Deduplication of CIEs, which layout does not do either.
- The assertions that only debug builds check in the table writer; GOT entries of the prelude, and relocations in data sections that share the dynamic relocation tables.
- The traversal that sets a symbol's flags: the guarantees used are the predicates `Resolutions.WellFormed` and `Resolutions.GoodSymbol`. A relocatable output has no thread-local slots because its relocations are not loaded (libwild/src/elf.rs:686-688).
- The sort of definitions by bucket before `.gnu.hash` is written.
- Version dependencies between version definitions (`vd_aux` parents) and the string-table offsets of version names.
- Copy relocations, which share the dynamic symbol writer.
- Repeated relaxation passes and the rewriting of relaxed instructions.
- Relaxations of other architectures.
- Merging of attributes from several inputs, and names that are not ASCII in `.riscv.attributes`.
- The `(size, mtime)` shortcut, the fingerprint of archive names and the hashing of arguments. The order in which hash maps are walked is arbitrary in the model.
