# Verified model of the build tooling

The build tooling describes hardware in JSON, resolves it for one board, writes C headers and a
resolved model, installs pinned archives, and checks and merges firmware images. This project models
the algorithms of that tooling in Dafny and proves what they are relied on for. It follows the
tooling's own structure: what is recursion there is a function here, what is updated in place is a
class or a loop that is proved against such a function.

| file | part of the tooling |
|---|---|
| `Outcomes`, `Collections`, `Powers`, `StringOrder` | results of operations, facts about collections, powers of a base over the reals, code point order |
| `Ieee`, `IeeeProperties`, `Numerals` | rounding an exact number once to binary32 or binary64, and the digits printed for it |
| `JsonText`, `JsonGrammar` | the text of JSON values, and reading it |
| `HardwareOutput`, `HardwareNumbers`, `DigestRoundTrip` | what is hashed and written of the resolved model, and loading it again |
| `MemberScanner`, `MemberReading`, `MemberProperties`, `MemberOffsets` | finding the line and column a JSON Pointer names, in any text that loads |
| `TypeGraph`, `Presence` | component types, their expansion into nodes, their connections and their presence |
| `DeviceSignals`, `SignalChains` | signals through module pins |
| `Wiring`, `NetPins`, `WiringProperties`, `BoardOwners`, `BusDevices`, `WiringPhase`, `Resolver` | allocation of endpoints and who owns them, controllers, addresses and chip selects, and all of it in one report |
| `Instances`, `SchemaCheck`, `SchemaProperties`, `SchemaErrors`, `FirstErrors` | validation against the hardware schemas, which errors it lists and which one is shown |
| `Uf2`, `Uf2Properties` | merging boot and application images |
| `RamPaths`, `RamBranches`, `RamLayouts` | functions in RAM that must not reach flash, and aliases among them |
| `Archive`, `ArchiveCheck`, `Installer` | installation of archives by renaming, and the record it keeps |
| `Coverage`, `Quoting` | tokens covered by duplicates; text quoted for C and for CMake |

## Reading the model

- Exact fractions are reals in specifications and a pair of integers in `IeeeValue`; binary32 and
  binary64 values are the reals they stand for.
- A dictionary is a map where only its content matters, and a list of items in sorted key order where
  the order reaches the result.
- SHA-256 is an arbitrary function, with 64 hexadecimal digits where the manifest is concerned. No
  statement takes it to be injective: a manifest decides kinds and digests, and contents as far as the
  texts compared do not collide.
- Renames and removals take their outcomes from a script of successes and failures, and the theorems
  hold for every script.
- Code is a function from an address to the targets of the branch there, and the disassembly of an
  extent shows the branches at its addresses. Aliases of one start therefore show the same code.

## What the code does not keep

These are properties a reader might expect and the code does not have. Each has a lemma with an
input, and a theorem with the exact condition under which the code does have the property.

| property | input | exact condition |
|---|---|---|
| a value in CMake brackets reads back | `Quoting.FenceOverlaps` | `Quoting.BracketReadsBack`: it neither starts with a newline nor ends with `]` and the fence |
| a failed installation leaves the destination as it was | `Installer.DeadLinkIsLost` | `Installer.FailureRestores`: nothing was there, it could not be moved aside, or it was alive and could be put back |
| a completed installation counts as unmodified | `Archive.OwnExclusionsMismatch`, `Archive.SpacedStampMismatch` | `Archive.InstalledMatches`: no carriage returns, a trimmed stamp, and no exclusions file in an archive from which nothing is excluded |
| one manifest stands for one record | `Archive.LineEndForges`, for every tree of two entries or more | `Archive.ManifestDecides`: where no path has a line end, it stands for the same paths, kinds and digests. Between trees of the same paths, `Archive.ContentsDecided` needs no condition on them |
| the RAM check decides reachable problems | `RamLayouts.SecondExtentIsMissed` | `RamLayouts.DecidesExactly`: in symbols as a linker lays them out, it always comes to a start first at the longest extent it could land on there |
| a pin is taken only with all of its soft reservations released | `WiringProperties.SecondReservationHides` | `WiringProperties.ReleasesRespectedExactly`: its soft reservations have one key |
| signals on one endpoint have one owner | `BoardOwners.NetsMeetOnBoard`, `BoardOwners.BoardOwnsLater` | `BoardOwners.OneOwnerExactly`: nets on one endpoint that have members have one owner, and so has the last net there of the signal the board wires to it. Off the board this always holds |

The last one is what `doc/en/device_tree_format.md`, line 65, asks of nets: it never permits two
independent drivers.

## Model

| member | source | states |
|---|---|---|
| `Ieee.IeeeValue` | scripts/hardware_literals.py:75-97 | the method with its exponent guess, its quantum and its carry computes the specified rounding of every exact fraction, errors included |
| `Ieee.BinaryExponent` | scripts/hardware_literals.py:84-86 | bit lengths corrected once give the exponent e with 2^e <= size < 2^(e+1) |
| `IeeeProperties.RoundIsNearestEven` | scripts/hardware_literals.py:75-97 | an accepted value is in the format, nothing in the format is nearer, and at a tie the significand is even, subnormals and carries included |
| `IeeeProperties.RoundIsUnique` | scripts/hardware_literals.py:88-97 | that law determines the value: nothing else in the format satisfies it |
| `IeeeProperties.RoundIsOdd` | scripts/hardware_literals.py:97-97 | rounding the negation gives the negation, or the same error |
| `IeeeProperties.RoundIsMonotone` | scripts/hardware_literals.py:75-97 | rounding never reverses the order of two accepted numbers, across all binades |
| `IeeeProperties.AcceptedRange` | scripts/hardware_literals.py:78-97 | exactly 0 and 2^(low-digits) < \|x\| < 2^(high+1) - 2^(high-digits) are accepted; which error the others give |
| `IeeeProperties.RoundKeepsFinite` | scripts/hardware_literals.py:75-97 | rounding is the identity on values of the format |
| `Numerals.RelativeGap` | scripts/hardware_literals.py:20-21 | two values of a format differ by at least their size over 2^digits, also below a power of two |
| `Numerals.NearbyRounds` | scripts/hardware_literals.py:75-97 | whatever is closer to a value than half that gap rounds to it and is accepted |
| `Numerals.FormatWidths` | scripts/hardware_literals.py:105-114 | 9 digits are wide enough for binary32 and 17 for binary64: 10^8 > 2^24, 10^16 > 2^53 |
| `Numerals.PrintedReadsBack` | scripts/hardware_literals.py:105-114 | the printed decimal of every value of a wide enough format rounds back to the value |
| `JsonText.QuotedScans` | scripts/hardware_output.py:89-89 | a written string is scanned back whatever follows it |
| `JsonText.NumeralReads` | scripts/hardware_output.py:81-82 | the written digits of a number are read back as the same token |
| `JsonText.ValueReads` | scripts/hardware_output.py:79-89 | the text of a value, at any depth of indentation and before any delimiter, reads back as the value |
| `JsonText.WrittenLoads` | scripts/hardware_output.py:73-89 | the document written for a value loads as that value, with its unique keys and finite numbers |
| `JsonGrammar.LoadsExactly` | scripts/hardware_schema.py:70-98 | the loader accepts exactly the texts of the grammar of RFC 8259, white space, escapes and number forms included, with unique keys and decimal numbers in range, as the values they stand for |
| `JsonGrammar.PlacesAre` | scripts/hardware_schema.py:70-98 | the value of digits is the sum of their places, from powers of ten |
| `JsonGrammar.WrittenSpells` | scripts/hardware_output.py:79-89 | what is written for a value is a text of that grammar for it |
| `HardwareNumbers.HashShows` | scripts/hardware_output.py:28-66 | at every path of a model the hash input shows the exact integer, the value rounded once to its type, the text or the shape there, read off the model without transforming it |
| `HardwareNumbers.HashesAgreeExactly` | scripts/hardware_output.py:28-66 | two models have one hash input exactly when they agree on all of that at every path; a changed value always changes it |
| `HardwareNumbers.FileKeepsMeaning` | scripts/hardware_output.py:28-89 | the model read back from its file means the same at every path, and each integer is spelled as that integer |
| `HardwareNumbers.AcceptsExactly` | scripts/hardware_output.py:28-54 | a model is hashed and written exactly when the type at every path can hold its number |
| `DigestRoundTrip.LiteralReads` | scripts/hardware_output.py:48-50 | the digits kept for a rounded value pass the loader's range rule and round to the same value |
| `DigestRoundTrip.LiteralKeepsDigits` | scripts/hardware_output.py:50-50 | stripping parentheses and the suffix of a C literal leaves exactly its digits |
| `DigestRoundTrip.DigestSurvives` | scripts/hardware_output.py:28-89 | the text written for a model loads, the loaded model has the same hash input and is written as the same text |
| `DigestRoundTrip.FinalizeAccepts` | scripts/generate_hardware_config.py:254-260 | a document whose stored digest is right is loaded with a right digest: an unmodified file is never rejected for it |
| `MemberScanner.Members.constructor` | scripts/device_tree_check.py:35-42 | scanning a whole text records what the scanning function records |
| `MemberScanner.Members.Value` | scripts/device_tree_check.py:59-92 | one value: the cursor, the recorded offsets and success are those of the scanning function |
| `MemberScanner.Locate` | scripts/device_tree_check.py:95-103 | the pointer is shortened to the nearest recorded one; line and column are of its offset, which lies in the text |
| `MemberReading.ScannerFollowsReader` | scripts/device_tree_check.py:31-92 | on every text that loads, whatever its layout, the scanner records exactly the JSON Pointers of the value, and reading at each offset gives the member or the item it names |
| `MemberProperties.EscapeInjective` | scripts/hardware_schema.py:57-59 | escaping of reference tokens is injective and leaves no slash |
| `MemberProperties.JoinInjective` | scripts/hardware_schema.py:57-59 | different lists of tokens are different pointers |
| `MemberProperties.ScannerInvertsWriter` | scripts/device_tree_check.py:31-92 | scanning the text written for any value consumes it and records exactly its JSON Pointers, each at the key or item it names |
| `MemberOffsets.OffsetsAreExact` | scripts/device_tree_check.py:31-92 | each offset is exactly where the writer put what its JSON Pointer names; different pointers have different ones |
| `MemberOffsets.WhereInside` | scripts/hardware_output.py:79-89 | whatever a path names is written inside the text of the value the path starts from |
| `MemberOffsets.WhereDiffers` | scripts/hardware_output.py:79-89 | different paths name different places |
| `MemberProperties.LocatesNearest` | scripts/device_tree_check.py:95-103 | the located pointer is the longest prefix of the asked one that the value has |
| `MemberProperties.PositionNamesOffset` | scripts/device_tree_check.py:102-103 | line and column lead back to the offset |
| `TypeGraph.CycleCheck.Visit` | scripts/hardware_model.py:269-280 | a visit keeps grey types as the chain and black ones ranked above their children, and fails only on a cycle |
| `TypeGraph.CheckCycles` | scripts/hardware_model.py:266-283 | succeeds exactly when no type contains itself, and then ranks the types |
| `TypeGraph.RankedIsAcyclic` | scripts/hardware_model.py:266-283 | a rank that falls along child types excludes cycles |
| `TypeGraph.Expander.Expand` | scripts/hardware_resolver.py:206-211 | ends by the rank, and declares exactly the nodes below a type, each with its type, keeping what was there |
| `TypeGraph.DeclaredNodes` | scripts/hardware_resolver.py:213-218 | an acyclic catalogue and a device tree give exactly the nodes of the type tree |
| `Presence.CheckConnections` | scripts/hardware_model.py:236-252 | accepts a type exactly when its connections name own signals and wire signals of declared children, each once |
| `Presence.PresencePhase` | scripts/hardware_resolver.py:308-355 | no problem exactly when all entries are of declared nodes and name known buses and nets, roots state their presence, absent parents have no entries below them and required children are there; presence follows the parent otherwise |
| `Presence.DeclaredUnfolds` | scripts/hardware_resolver.py:206-218 | below every declared node the children of its type are declared, with their types |
| `Presence.SignalPhaseReady` | scripts/hardware_model.py:236-252 | checked connections and presence are what the signal phase relies on: one module signal wires a child signal, and present children have present parents |
| `DeviceSignals.SignalPhase.ConnectOne` | scripts/hardware_resolver.py:433-438 | one connection adds its owner downwards and itself upwards for every target, nothing else |
| `DeviceSignals.SignalPhase.OwnerOf` | scripts/hardware_resolver.py:478-480 | following owners ends, by depth, at the leaf |
| `DeviceSignals.SignalPhase.AssignmentOf` | scripts/hardware_resolver.py:472-486 | ends, by depth, with the pin of the nearest entry above and that entry's leaf as owner |
| `DeviceSignals.SignalPhase.One` | scripts/hardware_resolver.py:447-470 | the exact problem and assignment of one signal: double wiring, inactive but connected, required but missing |
| `DeviceSignals.SignalPhase.Run` | scripts/hardware_resolver.py:429-470 | no problem exactly when no signal has one and all given pins have signals; then every signal has its assignment |
| `DeviceSignals.OneDriver` | scripts/hardware_resolver.py:429-486 | one driver per module pin: all signals fed through a connected pin have its value and owner; the leaf owns itself and nothing else does |
| `SignalChains.SourceIs` | scripts/hardware_resolver.py:472-486 | the site found for a signal is the one entry from which connections lead to it |
| `SignalChains.LeafIs` | scripts/hardware_resolver.py:478-480 | the owner found for a site is the one signal that owners lead to |
| `SignalChains.SignalsExactly` | scripts/hardware_resolver.py:429-486 | no problem exactly when no signal below a module has a pin of its own, no inactive one is connected and every required one is; then every signal has the pin, the site and the driver such chains lead to |
| `Wiring.WiringCheck.ClaimFor` | scripts/hardware_resolver.py:713-726 | a free endpoint is claimed; a net joins itself or the board; anything else is a conflict and changes no claim |
| `Wiring.WiringCheck.BoardClaims` | scripts/hardware_resolver.py:679-703 | the board wires every endpoint to its first use |
| `Wiring.WiringCheck.Take` | scripts/hardware_resolver.py:807-823 | exactly which problem is reported; without problems the pin is well formed, usable and this user's alone; a pin that is free, usable and asked for once gives no problem |
| `Wiring.WiringCheck.Buses` | scripts/hardware_resolver.py:800-823 | every bus has its required lines and no others, each on an endpoint of its own; a legal assembly gives no problem |
| `Wiring.WiringCheck.NetEndpoints` | scripts/hardware_resolver.py:825-839 | every net with an endpoint may use it and holds it or shares it with the board; a legal assembly gives no problem |
| `Wiring.WiringCheck.NodeEndpoints` | scripts/hardware_resolver.py:841-865 | directly wired signals hold their endpoints alone, members of nets take those of their net |
| `Wiring.WiringCheck.Inherit` | scripts/hardware_resolver.py:866-875 | signals wired through a module signal end with its endpoint |
| `Wiring.WiringCheck.DomainChecks` | scripts/hardware_resolver.py:876-888 | no problem exactly when every endpoint a signal ended with is of a domain it takes and is no pin the HAL reads as its default |
| `Wiring.WiringCheck.NetOwners` | scripts/hardware_resolver.py:890-909 | no problem exactly when the owner of every net is a signal on it and its outputs agree on their level; then all signals on a net have its owner and endpoint, and the others keep theirs |
| `Wiring.WiringCheck.Polarity` | scripts/hardware_resolver.py:911-927 | no problem exactly when all outputs on a net that state a level state the same one |
| `Wiring.WiringCheck.Run` | scripts/hardware_resolver.py:660-663 | the steps for endpoints and nets: no problem exactly when everything asked for is usable, nothing collides, handed-over endpoints suit and nets are owned |
| `Wiring.ServedIsExclusive` | scripts/hardware_resolver.py:713-726 | when every user has what it asked for, nothing collides |
| `NetPins.NormalizeIs` | scripts/hardware_resolver.py:728-752 | a pin value gives an endpoint exactly when it is of an allowed domain and the target or a present node has it; which error it gives otherwise |
| `NetPins.NetPinIs` | scripts/hardware_resolver.py:754-792 | each outcome for the pin of a net by its owner: a hard-reserved pin is for the device of its reservation alone; any other is released or for that device, and is brought out, or wired to the owning device or to a signal of the name of the owning project signal |
| `NetPins.NetFitsExactly` | scripts/hardware_resolver.py:825-839 | a net is usable exactly when its endpoint exists and its owner may have the pin |
| `NetPins.NetPinsAreReachable` | scripts/hardware_resolver.py:754-792 | all that holds of every net of a legal assembly |
| `NetPins.PixelTakesData` | scripts/hardware_resolver.py:787-792 | the unexposed data pin of an addressable LED, released: a project net there is accepted exactly for a signal `data`, and not for the `out` of an output |
| `WiringProperties.Releases` | scripts/hardware_resolver.py:666-677 | no problem exactly when all keys are soft reservations; exactly those are released |
| `WiringProperties.PinIsUsable` | scripts/hardware_resolver.py:754-792 | a bus line or direct signal gets a pin exactly when it is not hard-reserved, its last soft reservation is released, and it is exposed; reservations are reported before exposure |
| `WiringProperties.TakenPinsAreUsable` | scripts/hardware_resolver.py:728-792 | pins taken in a legal assembly exist, are exposed, free of hard reservations and not the board's; with one soft reservation per pin, of unreleased ones too |
| `WiringProperties.ReleasesRespectedExactly` | scripts/hardware_resolver.py:650-653 | whatever is released, an exposed pin without hard reservation is taken only with all its soft reservations released, exactly when these have one key |
| `WiringProperties.OverlookedRelease` | scripts/hardware_resolver.py:650-653 | with two keys on a pin, releasing the last listed one is enough |
| `WiringProperties.SecondReservationHides` | scripts/hardware_resolver.py:650-653 | two soft reservations on one pin, one of them unreleased, and the pin is usable |
| `WiringProperties.SharedEndpoint` | scripts/hardware_resolver.py:800-909 | two signals on an endpoint the board does not wire are on one net or under one site, and have the same owner |
| `WiringProperties.BusLineIsAlone` | scripts/hardware_resolver.py:800-823 | an endpoint of a bus line is no signal's and not the board's |
| `WiringProperties.AssignedCoherent` | scripts/hardware_resolver.py:429-486 | assignments of the signal phase give every site's value and owner to all it feeds |
| `BoardOwners.OneOwnerExactly` | scripts/hardware_resolver.py:890-909 | all signals on an endpoint have one owner, the board's signal included, exactly when the nets declared there agree: those with members, and the last one of the board's signal |
| `BoardOwners.BoardEnds` | scripts/hardware_resolver.py:893-909 | a board signal that has an owner ends on the last net declared on it, with its endpoint and its owner |
| `BoardOwners.NetsMeetOnBoard` | scripts/hardware_resolver.py:721-722 | an accepted assembly with two nets on the pin of the board's LED leaves two of its signals there, each its own owner |
| `BoardOwners.BoardOwnsLater` | scripts/hardware_resolver.py:893-909 | an accepted assembly in which a net without members comes last on that pin leaves the LED and the project's output each its own owner |
| `BusDevices.ControllerCheck.Take` | scripts/hardware_resolver.py:933-944 | no problem exactly when the controller exists and is free |
| `BusDevices.ControllerCheck.Controllers` | scripts/hardware_resolver.py:953-969 | no problem exactly when the controllers given are of the kinds taken, exist and differ, and addresses are given to I2C devices |
| `BusDevices.ControllerCheck.Addresses` | scripts/hardware_resolver.py:970-976 | no problem exactly when addresses on one bus differ |
| `BusDevices.ControllerCheck.Run` | scripts/hardware_resolver.py:929-976 | no problem exactly when all controllers of board, buses and devices exist and differ, devices take what they are given, and addresses differ |
| `BusDevices.Transports` | scripts/hardware_resolver.py:978-1049 | no problem exactly when every device fits its bus and SPI chip selects on one bus differ; then each device has its effective settings; frames, fixed SPI settings and clock limits included |
| `BusDevices.SettingsExactly` | scripts/hardware_resolver.py:993-1049 | a device on a bus runs with settings exactly when its bus is declared and of its kind, settles on them (UART none, I2C the rate of the bus, SPI its own choices before those of the bus) and its driver can apply them |
| `WiringPhase.Run` | scripts/hardware_resolver.py:655-664 | the phase with one report: it is empty exactly when the assembly is legal, endpoints suit, nets are owned, and controllers, addresses, transports and chip selects fit |
| `Resolver.Resolve` | scripts/hardware_resolver.py:622-664 | from checked connections and presence through signals and wiring: the report is empty exactly when all of it is in order; then signals that meet off the board have one owner, and all signals on one endpoint have exactly when the nets there agree |
| `BusDevices.RatesAgree` | scripts/hardware_resolver.py:1030-1041 | devices on one I2C bus run at one rate, within the limit of their types |
| `Instances.JsonEqualIsCanonical` | scripts/hardware_schema.py:101-113 | the equality computed is sameness without the order of fields, booleans apart from numbers |
| `SchemaProperties.ErrorsDecide` | scripts/hardware_schema.py:179-223 | the error list is empty exactly when the value satisfies the schema, whatever fields are kept, for schemas whose references end without descending |
| `SchemaProperties.ScalarsDecide` | scripts/hardware_schema.py:194-207 | constants, enumerations, lengths, patterns and bounds are reported exactly when violated |
| `SchemaProperties.DuplicatesDecide` | scripts/hardware_schema.py:228-231 | duplicates are reported exactly when two items are the same |
| `SchemaProperties.ObjectDecides` | scripts/hardware_schema.py:236-261 | required, declared, extra and named fields and their number: no error exactly when all hold |
| `SchemaProperties.ChosenDecides` | scripts/hardware_schema.py:263-278 | the choice of what oneOf shows is empty exactly when one branch has no error |
| `SchemaProperties.OneOfDecides` | scripts/hardware_schema.py:263-278 | oneOf lists no error exactly when exactly one branch is satisfied |
| `SchemaErrors.ErrorsAreViolations` | scripts/hardware_schema.py:179-278 | an error with a pointer and a message is listed exactly when the value violates its schema in that way at that path: items by number, fields by name, missing, unknown and surplus fields, names, duplicates, and the form of oneOf that takes the type; and every pointer leads to a part of the value, or to a field one of its parts lacks |
| `SchemaErrors.ChoiceErrorIs` | scripts/hardware_schema.py:263-278 | which errors oneOf shows: more than one form, the violations of the only form that takes the type, or none of the forms |
| `SchemaErrors.SurplusOnce` | scripts/hardware_schema.py:254-261 | a field too many is placed at the least key no enclosing condition names, or at the object |
| `FirstErrors.FirstError` | scripts/hardware_schema.py:175-177 | the first listed of the errors with the earliest pointer |
| `FirstErrors.PartsComeLater` | scripts/hardware_schema.py:62-67 | in the order of pointers a value comes before its parts, and items come by number |
| `Uf2.SplitJoin` | scripts/rp_ota_artifacts.py:33-54 | a file made of blocks is split into those blocks |
| `Uf2.JoinSplit` | scripts/rp_ota_artifacts.py:33-54 | the blocks of a file make up that file |
| `Uf2.ValidBytes` | scripts/rp_ota_artifacts.py:40-54 | a block is accepted exactly with the bytes of its three magic words, an address of a page, and the size of one page |
| `Uf2.FieldBytes` | scripts/rp_ota_artifacts.py:102-118 | the address is in bytes 12 to 15; number and count are written to bytes 20 to 27, least significant byte first, and nothing else changes |
| `Uf2.IgnoredBytes` | scripts/rp_ota_artifacts.py:57-69 | a block is ignored exactly with the extension flag in byte 9 and the tag after its page |
| `Uf2.SameMeans` | scripts/rp_ota_artifacts.py:108-113 | blocks for one address may differ in number and count only |
| `Uf2.Image.Add` | scripts/rp_ota_artifacts.py:104-114 | the first block of an address is kept; a different one for it is a conflict |
| `Uf2.Image.Pad` | scripts/rp_ota_artifacts.py:79-99 | exactly the missing pages of touched sectors below the last written page are added; without a written page it fails |
| `Uf2.Merge` | scripts/rp_ota_artifacts.py:102-118 | what a merge of two files comes to: it fails exactly for malformed, conflicting or empty input; otherwise writes one block for every occupied address, sorted and numbered |
| `Uf2Properties.MergeKeeps` | scripts/rp_ota_artifacts.py:102-118 | every input block survives apart from its number |
| `Uf2Properties.MergeFills` | scripts/rp_ota_artifacts.py:79-99 | a block no input has is a page of zeros, missing from a touched sector and not the last |
| `Uf2Properties.MergeCovers` | scripts/rp_ota_artifacts.py:79-99 | no page of a touched sector below the last written page is left without a block |
| `Uf2Properties.MergePasses` | scripts/rp_ota_artifacts.py:33-54 | the output of a merge is a well-formed file |
| `Uf2Properties.MergeUnique` | scripts/rp_ota_artifacts.py:102-118 | the description of a merge determines its output |
| `Uf2Properties.MergeIdempotent` | scripts/rp_ota_artifacts.py:102-118 | merging an output with itself gives it again, byte for byte |
| `Uf2Properties.MergeOrderFree` | scripts/rp_ota_artifacts.py:102-118 | the same blocks in another order give the same addresses and the same flash contents |
| `Uf2Properties.MergeSwapped` | scripts/rp_ota_artifacts.py:102-118 | swapping boot and application gives the same rejection or the same flash contents |
| `Uf2Properties.PaddingStaysInRange` | scripts/rp_ota_artifacts.py:121-145 | images that start at a region, which may be any page: the merge passes the range check exactly when every input page ends in the region and no lower page of its first sector is missing; at a sector boundary none can be |
| `Uf2Properties.FileMergeUnique` | scripts/rp_ota_artifacts.py:102-118 | a merge of two files has one result |
| `Uf2Properties.FileIdempotent` | scripts/rp_ota_artifacts.py:102-118 | merging a merged file with itself gives the same file |
| `Uf2Properties.FileSwapped` | scripts/rp_ota_artifacts.py:102-118 | swapping the files gives the same rejection or files of one size that leave the same flash contents |
| `Uf2Properties.FileInRange` | scripts/rp_ota_artifacts.py:121-145 | the same for merged files |
| `RamPaths.ContainingIsTheSymbol` | scripts/check_rp_ram_paths.py:112-118 | among symbols that do not overlap, bisection finds exactly the one an address lies in |
| `RamPaths.VeneerNames` | scripts/check_rp_ram_paths.py:128-131 | veneer names and their targets determine each other |
| `RamBranches.LeadIs` | scripts/check_rp_ram_paths.py:157-182 | each outcome of a branch by where it goes: inside, to no symbol, to the symbol at the target or, through a veneer, to the function the veneer is named after, in RAM, allowed or in flash |
| `RamPaths.CheckPath` | scripts/check_rp_ram_paths.py:150-183 | the worklist ends and lists the problems of the search, in its order |
| `RamPaths.SearchIsSound` | scripts/check_rp_ram_paths.py:150-183 | every problem listed is a bad branch of a reachable function, also where starts are shared |
| `RamPaths.SearchIsExact` | scripts/check_rp_ram_paths.py:150-183 | where the extents it could land on differ in their start, the problems are exactly the bad branches of reachable functions |
| `RamPaths.SearchDecides` | scripts/check_rp_ram_paths.py:150-183 | under that condition, nothing is listed exactly when everything reachable is good |
| `RamBranches.SearchStaysOut` | scripts/check_rp_ram_paths.py:150-183 | under that condition, nothing is listed exactly when no function reached in RAM branches to an unknown place or, directly or through a veneer, to flash that is not allowed |
| `RamBranches.SearchListsOffences` | scripts/check_rp_ram_paths.py:150-183 | ... and what is listed are exactly those branches, each with the start of its function |
| `RamPaths.RamStartsSuffice` | scripts/check_rp_ram_paths.py:112-131 | distinct starts of the symbols in RAM are enough; aliases in flash never matter |
| `RamLayouts.FindsLongest` | scripts/check_rp_ram_paths.py:112-118 | among aliases of one start, the bisection finds the longest for every address in one of them |
| `RamLayouts.SearchIsExactLaid` | scripts/check_rp_ram_paths.py:150-183 | with aliases: where it comes to every start first at the longest extent it could land on, the problems are exactly the bad branches of reachable functions |
| `RamLayouts.DecidesExactly` | scripts/check_rp_ram_paths.py:150-183 | for symbols as a linker lays them out, the search decides every code exactly when it always comes to a start first at the longest extent there |
| `RamLayouts.ShorterFirstMisses` | scripts/check_rp_ram_paths.py:157-159 | where it can come to a shorter one first, some code has a reachable bad branch and an empty list |
| `RamLayouts.SecondExtentIsMissed` | scripts/check_rp_ram_paths.py:157-159 | a function and its longer alias over the same code, both reachable: the bad branch in the rest of the longer one is not listed |
| `RamLayouts.PathDecides` | scripts/check_rp_ram_paths.py:150-183 | the same for laid-out symbols with aliases |
| `RamLayouts.CheckImage` | scripts/check_rp_ram_paths.py:186-194 | no required function is missing exactly when all are there; where aliases cannot mislead the search of any listed function, there are no problems exactly when every instance of every listed function passes |
| `Installer.FileSystem.RenameWithRetry` | scripts/component_manager.py:193-201 | up to eight attempts; the state is the old one until the moved one |
| `Installer.FileSystem.RemoveBackup` | scripts/component_manager.py:172-190 | up to eight attempts, each of which may remove a part |
| `Installer.FileSystem.AtomicReplace` | scripts/component_manager.py:211-225 | the exact final state for any failures; in every state on the way the old tree is whole, or the new one is in place |
| `Installer.FailureRestores` | scripts/component_manager.py:216-223 | a failed replacement leaves everything as it was exactly when nothing was there, it could not be moved aside, or it was alive and could be put back; otherwise the old tree is aside |
| `Installer.SuccessReplaces` | scripts/component_manager.py:216-225 | a finished replacement leaves the new tree, and beside it only a dead link it replaced |
| `Installer.DeadLinkIsLost` | scripts/component_manager.py:220-222 | a dead link is not put back even if that would succeed |
| `ArchiveCheck.ManifestLines` | scripts/component_manager.py:606-625 | a line for every recorded file and link, in path order |
| `ArchiveCheck.WriteMetadata` | scripts/component_manager.py:628-647 | pin, stamp, exclusions and then the manifest of all that |
| `ArchiveCheck.ArchiveMatches` | scripts/component_manager.py:650-678 | accepts exactly the installations that match their pin and their manifest |
| `ArchiveCheck.SyncArchive` | scripts/component_manager.py:818-860 | which runs replace the destination, and the state every outcome leaves; after a success or a failed cleanup the complete new tree is in place, and it matches for plain inputs; in every state on the way the old tree or the new one is whole |
| `ArchiveCheck.Install` | scripts/component_manager.py:211-225 | the state and the history every outcome of a replacement leaves |
| `Archive.InstalledMatches` | scripts/component_manager.py:628-678 | a completed installation matches exactly for plain inputs |
| `Archive.MatchesOwnPin` | scripts/component_manager.py:650-678 | a completed installation matches another pin exactly if address, digest and exclusions are the same and it asks for no version stamp or for the same |
| `Archive.OwnExclusionsMismatch` | scripts/component_manager.py:670-676 | an archive with an exclusions file of its own, nothing excluded: its installation does not match |
| `Archive.SpacedStampMismatch` | scripts/component_manager.py:665-669 | a stamp with a space at its end: the installation does not match |
| `Archive.ContentsDecided` | scripts/component_manager.py:606-625 | between trees of the same paths, whatever they are, manifests are equal exactly for the same kinds and digests, and exactly for the same contents where no texts collide |
| `Archive.ChangesAreNoticed` | scripts/component_manager.py:650-678 | with the manifest, the metadata and the recorded paths unchanged, the check still passes exactly when every recorded file and link keeps its kind and digest |
| `Archive.ChangeIsNoticed` | scripts/component_manager.py:650-678 | a recorded file or link that has changed makes the check fail, unless its old and new texts collide |
| `Archive.ManifestDecides` | scripts/component_manager.py:606-625 | without line ends in paths, manifests are equal exactly for the same paths, kinds and digests: files cannot come or go unnoticed either |
| `Archive.LineEndForges` | scripts/component_manager.py:606-625 | with a line end in a path, every tree of two entries or more shares its manifest with a single file or link |
| `Coverage.CoveredTokens` | scripts/run_cpd.py:301-313 | the sweep counts the distinct tokens in the union of the ranges, however they overlap |
| `Quoting.CString` | scripts/hardware_literals.py:41-54 | the loop writes the specified spelling of every byte |
| `Quoting.LiteralReadsBack` | scripts/hardware_literals.py:41-54 | read as a C literal, the text gives the original bytes |
| `Quoting.NoTrigraph` | scripts/hardware_literals.py:41-54 | no literal holds two question marks in a row |
| `Quoting.CmakeValue` | scripts/project_config.py:473-477 | the loop ends, and writes the value in its one fence |
| `Quoting.FenceIsUnique` | scripts/project_config.py:473-477 | the fewest bars whose closing bracket is not in the value are one number |
| `Quoting.CmakeSet` | scripts/generate_hardware_config.py:443-448 | the same value inside a set command |
| `Quoting.BracketReadsBack` | scripts/generate_hardware_config.py:443-448 | the value reads back exactly when it neither starts with a newline nor ends with a bracket and the fence |
| `Quoting.FenceOverlaps` | scripts/generate_hardware_config.py:443-448 | a value whose end joins the fence is cut short |

## Left out

- Numerals.PrintedReadsBack: Python's `.8e` and `.16e` are taken as a nearest decimal with that many digits; conversion of the result to a machine float is not modelled.
- JsonGrammar.LoadsExactly: `\u` escapes of surrogates and characters outside the Basic Multilingual Plane are read as written; UTF-8 encoding is not part of this model.
- DigestRoundTrip.DigestSurvives: a C type is text, as the catalogue's schema demands, and besides its value a float entry holds no floating number.
- HardwareNumbers.HashShows: packing a rounded value into its bits is taken as one-to-one for each format, and SHA-256 is taken of the hash input as a value.
- WiringPhase.Run: messages, pointers and the sorted report of problems are not modelled, only that there are problems and of which code.
- Wiring.WiringCheck.NetOwners: a board signal that is no signal of a node (a clock source on a joined net) ends the program with a lookup error; it is counted as a problem here.
- BoardOwners.OneOwnerExactly: what the board wires are no signals of the project; a project node of the name of a clock source would be one.
- SchemaProperties.ErrorsDecide: numbers are the reals they stand for; patterns are predicates; a condition that is a bare `true` would end the program and is taken as naming no fields; unsupported keywords are rejected before validation.
- RamLayouts.CheckImage: reading the symbol table and the disassembly are inputs; symbols come sorted by address.
- RamLayouts.DecidesExactly: symbols of different starts do not overlap and veneers have no aliases of another size; `RamPaths.SearchIsExact` needs neither.
- ArchiveCheck.SyncArchive: downloading and extracting are inputs; the last removal of the staging directory succeeds; metadata names in an archive are not links to other files, and files below linked directories are not recorded.
- Quoting.BracketReadsBack: carriage returns, which CMake treats as part of a line end, are not modelled.
- Quoting.CString: UTF-8 encoding is an input, as bytes.
- Conditions on signals, property values, units, clock trees, providers, status LEDs and header rendering: mostly single comparisons, or delegated to registries that are not part of this model.
- Cross-assembly uniqueness of macro names.
- Git checkouts, tool probes, firewall and editor configuration, and the orchestration of external builds.
