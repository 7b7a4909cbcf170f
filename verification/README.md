# Verified model of the OpenCL bindings' shared defaults and ownership, and of the bootstrap weight file

This project models, in Dafny 4.11, four parts of the repository and proves properties that hold of every input,
every interleaving and every reachable state:

1. **Shared default objects.** `Context::getDefault` and `CommandQueue::getDefault` of `CL/cl.hpp` build one object
   for the whole process with a hand-written flag protocol; `CL/cl2.hpp` does the same for platform, context, device
   and queue with `std::call_once`, plus `setDefault`. Both are modelled as interleavings of atomic steps of any
   number of calls, under sequential consistency.
2. **Reference counts.** `detail::Wrapper`, its specialisation for devices, and the `getInfoHelper` overloads that fill
   wrappers, as classes over a runtime that keeps a count per object.
3. **The bootstrap weight file.** `ci/record_rep_weights.py` sorts representatives, picks the heaviest up to a share of
   the supply and writes a binary file; the node prints the account texts it consumes, reads the file at start and
   answers vote weights from it.
4. **Small containers.** `cl::vector`, `cl::string` and the OpenCL version parser.

`dafny verify dfyconfig.toml` checks everything.

## Layout

| file | content |
|---|---|
| `Basics.dfy` | optional values, handles, counts |
| `SpinSlot.dfy`, `SpinRuns.dfy` | one flag-protected slot of `CL/cl.hpp`; what every run of it keeps |
| `SpinDefault.dfy`, `SpinTheorems.dfy` | the context and queue slots together, the nested call, progress |
| `CallOnce.dfy`, `CallOnceTheorems.dfy` | the four-level `call_once` chain of `CL/cl2.hpp` |
| `Ownership.dfy`, `Wrappers.dfy` | the count model; the plain and the device wrapper class |
| `Programs.dfy`, `InfoHelpers.dfy` | programs of either class as runs of the model; the info helpers |
| `Digits.dfy` | positional numerals |
| `Accounts.dfy`, `Base32.dfy` | the node's account text, and the script's way of decoding it |
| `RepSelect.dfy`, `WeightFile.dfy` | selection of representatives; the file, its writer and its reader |
| `Version.dfy`, `ClVector.dfy`, `ClString.dfy` | version parser and containers |

## Findings

- **The script does not accept this node's own addresses.** The node prints accounts with the prefix `flr_`
  (`nano/lib/numbers.cpp:80`), the script strips `xrb_` (`ci/record_rep_weights.py:51`). `Base32.FailsOnNodePrefix` shows
  that decoding fails for every account, and `WeightFile.NodeAddressesRaise` that the script then ends with only the
  header written. `Base32.RecoversExactly` gives the exact condition on the prefix.
- **The flag needs its start value.** The `std::atomic<int>` definitions in `CL/cl.hpp` name no start value; static
  storage makes it 0. From 0 two calls can both initialise (`SpinRuns.ZeroStartFails`). `SpinRuns.ExclusiveExactly` says
  for which start values exclusion holds, and `SpinRuns.OnlyStartIsOne` that 1 is the only one that gives exclusion
  and lets an object be published.
- **A platform failure can be lost.** Without exceptions, `Context::makeDefault` ignores the error of
  `Platform::getDefault` (`CallOnceTheorems.LostWithoutExceptions`); it always arrives exactly when exceptions are
  enabled (`CallOnceTheorems.ReachesExactly`).
- **A zero threshold still records one representative.** With one representative of weight 1 the threshold is 0, and one
  record is written though none is needed (`RepSelect.OneRecordTooMany`). By `RepSelect.FewestExactly` the selection is the
  smallest possible if and only if limit times the supply in whole units of 10^30 is at least one unit, or the supply is 0.
- **The version test is on a signed number.** For major versions of 2^15 and above the packed version turns negative and
  a device counts as older than 1.2 (`Ownership.CountedExactly`, `Version.PackedOrder`).

## Model

| member | source | states |
|---|---|---|
| `SpinSlot.EntersOnce` | CL/cl.hpp:2648-2669 | a call is in the initialising section after a step only if it already was, or the flag was still 1; the flag is then 2 |
| `SpinSlot.TouchedIsAlive` | CL/cl.hpp:1795-1833 | every retain or release made while copying, assigning or destroying the default hits an object with a positive count |
| `SpinSlot.InvKept` | CL/cl.hpp:2646-2692 | every step of every participant keeps exclusion, the meaning of the flag, agreement of what was read, and conservation of counts |
| `SpinRuns.OneInitialiserEver` | CL/cl.hpp:2646-2692 | over a whole run, at two different moments, the call in the initialising section is the same one |
| `SpinRuns.Frozen` | CL/cl.hpp:2681-2690 | once the flag is 4, `default_`, `default_error_` and the flag never change again |
| `SpinRuns.ReadsAreFinal` | CL/cl.hpp:2652-2669 | a call that reads `default_` or `default_error_` meets the values they keep to the end |
| `SpinRuns.SameAnswer` | CL/cl.hpp:2642-2646 | any two completed calls returned the same handle, and the same error if they asked for it |
| `SpinRuns.BuiltIsPublished` | CL/cl.hpp:2672-2690 | from the moment the constructor returns (o, e), a published slot holds exactly o and e, and every completed call has o, and e if it asked for it |
| `SpinRuns.CountIsOnePlusCopies` | CL/cl.hpp:2656-2690 | in every reachable state in which `default_` holds the object, published or not, its count is one for `default_` plus one per live copy |
| `SpinRuns.TwoInitialisers` | CL/cl.hpp:2648-2677 | from a start flag that is not 1 and has neither mask bit, two calls reach the initialising section together |
| `SpinRuns.ZeroStartFails` | CL/cl.hpp:2813-2821 | the zero-initialised atomic flag does not give exclusion |
| `SpinRuns.ExclusiveExactly` | CL/cl.hpp:2813-2823 | exclusion holds in every run from start flag f if and only if f is 1 or f mod 8 is at least 2, that is, bit 2 or 4 is set |
| `SpinRuns.CanPublishExactly` | CL/cl.hpp:2648-2690 | some run from start flag f publishes an object if and only if f mod 8 is 0 or 1, that is, neither bit is set |
| `SpinRuns.OnlyStartIsOne` | CL/cl.hpp:2813-2823 | exclusion in every run and publication in some run hold together if and only if the start flag is 1 |
| `SpinDefault.NestedAnswer` | CL/cl.hpp:5617-5620 | when the queue initialiser's nested call has returned, it holds the published context and its error |
| `SpinDefault.InvKept` | CL/cl.hpp:5592-5651 | every step keeps the nesting of the two protocols and ties the queue's outcome to the published context |
| `SpinTheorems.Projects` | CL/cl.hpp:5592-5651 | each run of the nested protocol is, level by level, a run of the single-slot protocol |
| `SpinTheorems.OneInitialiserEver` | CL/cl.hpp:5592-5615 | at most one call ever initialises each of the two defaults |
| `SpinTheorems.ReadsAreFinal` | CL/cl.hpp:5598-5615 | at both levels no call reads before object and error are final |
| `SpinTheorems.SameAnswer` | CL/cl.hpp:5598-5649 | at both levels all completed calls agree on handle and error |
| `SpinTheorems.ContextConstructorReturns` | CL/cl.hpp:2672-2677 | in every reachable state, a call that has won the context's flag may get any new object or none, with any code |
| `SpinTheorems.ContextIsAsConstructed` | CL/cl.hpp:2672-2690 | over every run, the published context and its error are the object and the code its constructor returned to the winning call, and so are all later answers |
| `SpinTheorems.QueueConstructorReturns` | CL/cl.hpp:5630-5640 | the same freedom for the queue's constructor once the nested call has returned a context without error |
| `SpinTheorems.QueueIsAsConstructed` | CL/cl.hpp:5630-5649 | over every run, the published queue and its error are then the object and the code its constructor returned, and so are all later answers |
| `SpinTheorems.BeginRemembered` | CL/cl.hpp:5592-5592 | a call stays of its kind, and whether it asked for the error is what its caller passed |
| `SpinTheorems.CountIsOnePlusCopies` | CL/cl.hpp:2656-2690 | the same at both levels of the nested protocol, in every reachable state, the initialiser's own local copy of the context included |
| `SpinTheorems.NeverTouchesDead` | CL/cl.hpp:1795-1833 | no step of a run retains or releases an object whose count is zero |
| `SpinTheorems.QueueComesFromContext` | CL/cl.hpp:5617-5642 | once the queue is published so is the context; a queue object was created in that context, a queue without error means a context without error, and a context error becomes the queue's, with no queue object |
| `SpinTheorems.SpinningStutters` | CL/cl.hpp:5605-5609 | a turn of a while loop changes nothing |
| `SpinTheorems.ProductiveDecreases` | CL/cl.hpp:2659-2663 | every other step of an existing call decreases a measure summed over all calls |
| `SpinTheorems.SomeoneProgresses` | CL/cl.hpp:5605-5619 | while a call is unfinished some call has a step that is not a turn of a while loop |
| `SpinTheorems.CanFinish` | CL/cl.hpp:2646-2692 | from every reachable state all calls made so far can be completed |
| `SpinTheorems.TotalWorkIsBounded` | CL/cl.hpp:5592-5651 | n calls take at most 19 n such steps however they interleave |
| `CallOnce.StepLater` | CL/cl2.hpp:2768-2790 | no step changes a slot whose flag is done |
| `CallOnce.MakerRespects` | CL/cl2.hpp:2887-2914 | what a maker stores after its nested calls answered follows from those answers: the first stopping failure becomes its error, with no object |
| `CallOnce.InvKept` | CL/cl2.hpp:6580-6605 | every step keeps descending call stacks, flag ownership, one maker per level and the tie of each default to the ones below |
| `CallOnceTheorems.NeverReenters` | CL/cl2.hpp:6884-6896 | a thread never waits for a flag it is running itself |
| `CallOnceTheorems.NeverDeadlocks` | CL/cl2.hpp:2154-2190 | in every reachable state with an unanswered call some thread has a step |
| `CallOnceTheorems.RunsAreBounded` | CL/cl2.hpp:6580-6605 | every run of n calls has at most 54 n steps |
| `CallOnceTheorems.MaximalRunsAnswer` | CL/cl2.hpp:6884-6910 | a run that cannot be extended has answered every call |
| `CallOnceTheorems.OneMakerEver` | CL/cl2.hpp:2237-2260 | at most one thread ever runs the maker of a level, and it never changes |
| `CallOnceTheorems.SameAnswer` | CL/cl2.hpp:1959-1982 | any two answered calls of a level, get or set, ended alike: same object and code, or the same exception |
| `CallOnceTheorems.MakersAskBelow` | CL/cl2.hpp:6580-6605 | in every reachable state each open maker has asked the named levels in their order (context: platform; device: context; queue: context, then device only if that succeeded) and was told what they hold |
| `CallOnceTheorems.ConstructorReturns` | CL/cl2.hpp:2551-2561 | a maker with all its answers may get any object and code from the constructor, without an object if it throws |
| `CallOnceTheorems.MadeAsConstructed` | CL/cl2.hpp:2551-2561 | over every run, a made default holds exactly the object and the code that the constructor returned; every call of the level gives them, or throws a failure code with exceptions on |
| `CallOnceTheorems.MadeFromBelow` | CL/cl2.hpp:2887-2914 | a made context rests on a sealed platform, a made device on a sealed context, a made queue on a sealed context and, if that succeeded, device; the first failure that ends the maker leaves its code and no object |
| `CallOnceTheorems.BeginRemembered` | CL/cl2.hpp:2768-2790 | a call keeps its level and the object it was given |
| `CallOnceTheorems.ProvidedWins` | CL/cl2.hpp:2778-2790 | when setDefault came first, every answer of that level is the object that one call passed, with code 0 |
| `CallOnceTheorems.ContextFailureReaches` | CL/cl2.hpp:2898-2907 | with or without exceptions, a default device or queue that was made, not provided, has the context's error code and no object whenever that code is not 0 |
| `CallOnceTheorems.ReachesWithExceptions` | CL/cl2.hpp:2534-2564 | with exceptions and nothing provided, a platform failure code reaches context, device and queue unchanged |
| `CallOnceTheorems.LostWithoutExceptions` | CL/cl2.hpp:2543-2557 | there is a run without exceptions and without provided objects in which a platform failure does not reach the levels above |
| `CallOnceTheorems.ReachesExactly` | CL/cl2.hpp:2534-2564 | with nothing provided, platform failures reach every level in all runs if and only if exceptions are enabled |
| `Ownership.CountedExactly` | CL/cl2.hpp:1690-1706 | for all target and minimum versions of the build, a device is counted if and only if the target is at least 120 and either the minimum is too, or the device is not null, (major, minor) is above (1, 1) and major is below 2^15 |
| `Ownership.CallsSafe` | CL/cl2.hpp:1602-1644 | in a conserving state no operation retains or releases a dead object, not even assigning between two wrappers of one object |
| `Ownership.Balanced` | CL/cl.hpp:1791-1841 | what an operation's calls add to a count is what it adds to the object's owners, in wrappers and outside |
| `Ownership.Conservation` | CL/cl2.hpp:1583-1678 | after every run each count is the owning wrappers plus the references owned elsewhere |
| `Ownership.NeverTouchesDead` | CL/cl2.hpp:1659-1677 | in every run no retain or release hits a count of zero |
| `Ownership.DeadExactly` | CL/cl.hpp:1795-1804 | after every run an object is dead if and only if nobody outside owns it and no live wrapper does |
| `Ownership.FlagsAlwaysRight` | CL/cl2.hpp:1729-1773 | after every run each non-null device wrapper's flag is what `isReferenceCountable` answers, though assignment only copies it |
| `Ownership.UncountableUntouched` | CL/cl2.hpp:1790-1808 | wrapper operations never call the runtime on a device that is not countable |
| `Ownership.DeviceCounts` | CL/cl2.hpp:1690-1808 | after every run, for every build, a device's count is the references owned elsewhere plus its live wrappers if build and version let it be counted, and plus nothing otherwise |
| `Ownership.DefaultBuildCounts` | CL/cl2.hpp:386-400 | in the default build every live wrapper of a device owns one reference, whatever its version |
| `Wrappers.Wrapper.Raw` | CL/cl2.hpp:1595-1600 | construction from a handle stores it and retains it only on request and if not null |
| `Wrappers.Wrapper.Copy` | CL/cl.hpp:1800-1804 | copy construction takes the other's object and retains it |
| `Wrappers.Wrapper.Move` | CL/cl.hpp:1807-1811 | move construction takes the object, leaves null, calls nothing |
| `Wrappers.Wrapper.Destroy` | CL/cl.hpp:1795-1798 | destruction releases exactly a non-null object |
| `Wrappers.Wrapper.AssignCopy` | CL/cl.hpp:1814-1822 | release of the old then retain of the new object; self-assignment changes nothing |
| `Wrappers.Wrapper.AssignMove` | CL/cl.hpp:1825-1833 | release of the old object, the other left null; self-assignment changes nothing |
| `Wrappers.Wrapper.AssignRaw` | CL/cl.hpp:1836-1841 | release of the old object, the handle taken over without retain |
| `Wrappers.DeviceWrapper.Raw` | CL/cl2.hpp:1713-1722 | as for the plain wrapper, with the flag computed |
| `Wrappers.DeviceWrapper.Copy` | CL/cl2.hpp:1729-1734 | the flag is recomputed from the handle before retaining |
| `Wrappers.DeviceWrapper.Move` | CL/cl2.hpp:1736-1742 | handle and flag move; the other is left null and false |
| `Wrappers.DeviceWrapper.AssignCopy` | CL/cl2.hpp:1744-1753 | release under the old flag, then handle and flag copied, then retain under the new flag |
| `Wrappers.DeviceWrapper.AssignMove` | CL/cl2.hpp:1755-1765 | release under the old flag, handle and flag moved |
| `Wrappers.DeviceWrapper.AssignRaw` | CL/cl2.hpp:1767-1773 | release under the old flag, then the flag recomputed |
| `Programs.DeviceProgram.Construct` | CL/cl2.hpp:1713-1722 | on a heap of device wrappers the constructor is the model's step, and the invariant is kept |
| `Programs.DeviceProgram.ConstructCopy` | CL/cl2.hpp:1729-1734 | likewise for copy construction |
| `Programs.DeviceProgram.ConstructMove` | CL/cl2.hpp:1736-1742 | likewise for move construction |
| `Programs.DeviceProgram.CopyAssign` | CL/cl2.hpp:1744-1753 | likewise for copy assignment between any two wrappers, the same one included |
| `Programs.DeviceProgram.MoveAssign` | CL/cl2.hpp:1755-1765 | likewise for move assignment |
| `Programs.DeviceProgram.RawAssign` | CL/cl2.hpp:1767-1773 | likewise for assignment from a handle |
| `Programs.DeviceProgram.Delete` | CL/cl2.hpp:1724-1727 | likewise for destruction |
| `Programs.PlainProgram.Construct` | CL/cl2.hpp:1595-1600 | on a heap of plain wrappers, counting every non-null object, the constructor is the model's step, and the invariant is kept |
| `Programs.PlainProgram.ConstructCopy` | CL/cl2.hpp:1607-1611 | likewise for copy construction |
| `Programs.PlainProgram.ConstructMove` | CL/cl2.hpp:1613-1617 | likewise for move construction |
| `Programs.PlainProgram.CopyAssign` | CL/cl2.hpp:1619-1627 | likewise for copy assignment between any two wrappers, the same one included |
| `Programs.PlainProgram.MoveAssign` | CL/cl2.hpp:1629-1637 | likewise for move assignment |
| `Programs.PlainProgram.RawAssign` | CL/cl2.hpp:1639-1644 | likewise for assignment from a handle |
| `Programs.PlainProgram.Delete` | CL/cl2.hpp:1602-1605 | likewise for destruction |
| `InfoHelpers.HandleVector.AssignRange` | CL/cl.hpp:1178-1178 | assigning raw handles releases everything the vector owned and leaves unowned wrappers of the new handles |
| `InfoHelpers.HandleVector.AssignThenRetain` | CL/cl.hpp:1162-1190 | on success each count loses what the old elements owned and gains what the new ones own, nulls, duplicates and overlap included; on a failed query nothing changes |
| `InfoHelpers.HandleVector.RetainThenMove` | CL/cl2.hpp:958-967 | resizing and move-assigning retained temporaries leaves the same elements and exchanges the same counts |
| `InfoHelpers.GetList` | CL/cl2.hpp:940-969 | the same contract as in cl.hpp for a vector that is given; with a null vector or a failed query no count and no element changes |
| `InfoHelpers.HeadersAgree` | CL/cl2.hpp:958-967 | from equal starts both headers return the same error, elements and counts |
| `InfoHelpers.GetOne` | CL/cl2.hpp:1037-1054 | for a plain wrapper the single-valued overload exchanges one owned reference for another, or changes nothing on error |
| `InfoHelpers.GetOneDevice` | CL/cl2.hpp:1037-1054 | the same for a device wrapper |
| `Accounts.TablesInvert` | nano/lib/numbers.cpp:41-60 | the encode and decode tables are inverse to each other on all characters |
| `Accounts.TablesAreAlphabet` | nano/lib/numbers.cpp:41-60 | symbol v is the v-th character of the account alphabet, a character has value v exactly if it stands there, and none outside has a value |
| `Accounts.EncodeAccount` | nano/lib/numbers.cpp:62-82 | the loop, the appended tag and the reversal give the prefix and the sixty base-32 digits of account and checksum |
| `Accounts.DecodeAccount` | nano/lib/numbers.cpp:91-145 | the error result agrees with the definition of accepted texts, and the account is replaced exactly for legible texts, also when only the checksum is wrong |
| `Accounts.FirstSymbol` | nano/lib/numbers.cpp:103-104 | every account's text starts with 1 or 3, so that test rejects none |
| `Accounts.BodyValue` | nano/lib/numbers.cpp:62-82 | the sixty symbols are the number account * 2^40 + checksum, for every 256-bit account |
| `Accounts.DecodeEncode` | nano/lib/numbers.cpp:62-145 | every 256-bit account is recovered from its own text, with `_` or `-`, for every checksum function |
| `Accounts.EncodeDecode` | nano/lib/numbers.cpp:91-145 | an accepted text is the text of the account it decodes to, up to `_` or `-`, and that account fits 256 bits |
| `Base32.StripNothing` | ci/record_rep_weights.py:51-51 | a text without `xrb_` is left as it is |
| `Base32.StripEverywhere` | ci/record_rep_weights.py:51-51 | every occurrence of `xrb_` goes, wherever it stands, and the parts around it are treated separately |
| `Base32.TranslatesAlphabet` | ci/record_rep_weights.py:20-20 | the v-th character of the account alphabet becomes the v-th of the base-32 one, and every other character stays |
| `Base32.StandardIsAlphabet` | ci/record_rep_weights.py:51-51 | the decoder's values are the positions in the alphabet of section 6 of RFC 4648 |
| `Base32.AcceptedSymbol` | ci/record_rep_weights.py:20-20 | after translation exactly the account symbols, A to Z and 2 decode, account symbols to their own value |
| `Base32.QuantaValue` | ci/record_rep_weights.py:51-51 | decoded quanta are the same number in base 256 as their symbols in base 32 |
| `Base32.PadsExactly` | ci/record_rep_weights.py:51-51 | the pads counted are all those at the end and no more |
| `Base32.DecodeFourPads` | ci/record_rep_weights.py:51-51 | with four pads appended to any text, decoding succeeds if and only if the symbols before its own pads are decodable and are 4 modulo 8 with no pads or 2 modulo 8 with two; it gives five bytes per whole quantum and two or one for the rest |
| `Base32.TextNumber` | ci/record_rep_weights.py:51-52 | for every address: the script raises exactly on other lengths or characters, and otherwise computes (V div 2^40) mod 2^256 of the stripped text's value V, or (V div 2^38) mod 2^256 if it ends in two pads |
| `Base32.RecoversExactly` | ci/record_rep_weights.py:51-52 | behind any prefix an account is recovered if and only if stripping the prefix leaves a multiple of eight characters, all of them accepted |
| `Base32.RecoversOldPrefix` | ci/record_rep_weights.py:51-52 | every account with any checksum is recovered behind `xrb_` |
| `Base32.FailsOnNodePrefix` | ci/record_rep_weights.py:51-52 | no account is decoded behind the node's own prefix `flr_` |
| `RepSelect.SortedKeeps` | ci/record_rep_weights.py:33-33 | the sort is descending, a permutation, and keeps the order of equal weights |
| `RepSelect.SupplyMax` | ci/record_rep_weights.py:35-41 | the loop and the two roundings give a whole number of units of 10^30, and k units are within the threshold if and only if k * den is at most the supply's whole units times num |
| `RepSelect.GoalExactly` | ci/record_rep_weights.py:39-41 | the same of the threshold of any supply, for every k: both roundings go down, each by itself |
| `RepSelect.GoalBounds` | ci/record_rep_weights.py:39-41 | the threshold is at most limit times supply and less than 2 * 10^30 below it |
| `RepSelect.StopReaches` | ci/record_rep_weights.py:46-60 | the loop ends with the threshold reached; for a positive one the records before the last fall short |
| `RepSelect.TakenExactly` | ci/record_rep_weights.py:46-60 | for every list and goal, n is the number of records if and only if n weights are positive, none before the last reaches the goal, and the next is missing, zero, or not needed |
| `RepSelect.TakenReaches` | ci/record_rep_weights.py:33-60 | the same from the unsorted input, for every limit in [0, 1] |
| `RepSelect.HeaviestFirst` | ci/record_rep_weights.py:33-33 | no choice of m representatives outweighs the first m of the sorted list |
| `RepSelect.TakenIsFewest` | ci/record_rep_weights.py:48-60 | for a positive threshold no set reaching it has fewer members than the records written |
| `RepSelect.FewestExactly` | ci/record_rep_weights.py:33-60 | from unsorted representatives and any limit num / den, the selection is smallest if and only if (supply div 10^30) * num >= den or the supply is 0 |
| `RepSelect.OneRecordTooMany` | ci/record_rep_weights.py:48-60 | one representative of weight 1 gives threshold 0, one record, and a selection that is not the smallest |
| `WeightFile.HexFits` | ci/record_rep_weights.py:44-53 | a value that fits is written in exactly the padded width and reads back |
| `WeightFile.HexWide` | ci/record_rep_weights.py:44-53 | a value that does not fit takes all its hex digits, and raises exactly if their number is odd |
| `WeightFile.WriteRecords` | ci/record_rep_weights.py:46-60 | the loop writes the records before its stopping point, or before the first that cannot be built |
| `WeightFile.WriteWeights` | ci/record_rep_weights.py:43-60 | header and records, with the exceptions the formatting can raise |
| `WeightFile.Generate` | ci/record_rep_weights.py:33-60 | the script from unsorted representatives to its file |
| `WeightFile.RecordReads` | ci/record_rep_weights.py:51-55 | a record is 48 bytes that read back as account and weight |
| `WeightFile.FileRoundTrip` | ci/record_rep_weights.py:43-57 | reading 16 bytes and then 48-byte records recovers the height and the ordered (account, weight) list |
| `WeightFile.RaisedFile` | ci/record_rep_weights.py:48-57 | if the record of a due representative cannot be built, the script ends with the header and exactly the records before it in the file |
| `WeightFile.RecordRaises` | ci/record_rep_weights.py:51-53 | a record cannot be built if and only if the address does not decode or the weight is too wide with an odd number of hex digits |
| `WeightFile.StoredLast` | nano/node/node.cpp:1585-1599 | of several records of one account the last decides |
| `WeightFile.Ledger.ReadWeights` | nano/node/node.cpp:1575-1603 | the node loads all complete records if its block count is below the header's height, and nothing otherwise, whatever the cast to 64 bits makes of a larger header |
| `WeightFile.Ledger.VoteWeight` | nano/secure/ledger.cpp:807-827 | the bootstrap weight below the block limit, otherwise the stored one; once the limit is reached the check stays off |
| `WeightFile.AskAll` | nano/secure/ledger.cpp:807-827 | over any list of votes, bootstrap weights answer until the first vote at or above the block limit and never again after it |
| `WeightFile.FileContents` | nano/node/node.cpp:1577-1599 | the loaded table holds exactly the recorded accounts with their weights, and the header reads back as the height |
| `WeightFile.Bootstrap` | nano/secure/ledger.cpp:807-827 | script, file, reader and any list of votes together: below the height every recorded account votes with its recorded weight, every other with its stored one; from the first vote at or above it, and if the file was read too late, all vote with their stored one |
| `WeightFile.NodeAddressesRaise` | ci/record_rep_weights.py:48-55 | on addresses this node prints the script ends at the first positive weight with only the header written |
| `Version.PackAdds` | CL/cl.hpp:1747-1747 | shifting and or-ing two 16-bit halves adds them |
| `Version.OrBits` | CL/cl.hpp:1747-1747 | the bitwise or, bit by bit, for all numbers |
| `Version.NumberPlaces` | CL/cl.hpp:1736-1746 | every character counts with its distance from `0` in its decimal place, digit or not |
| `Version.GetVersion` | CL/cl.hpp:1731-1748 | the two loops, whose ints wrap in 32 bits, return the word of the numbers before and after the dot |
| `Version.ParsedPrinted` | CL/cl.hpp:1731-1748 | parsing a printed version gives back major and minor, whatever follows |
| `Version.ParsePrinted` | CL/cl2.hpp:1532-1549 | the word returned is major * 2^16 + minor for all 16-bit halves |
| `Version.PackedOrder` | CL/cl.hpp:1876-1877 | compared as ints, packed versions are ordered as (major, minor) pairs are, if and only if both majors lie on the same side of 2^15 |
| `ClVector.Vector.Filled` | CL/cl.hpp:768-774 | the first N of the requested copies |
| `ClVector.Vector.PushBack` | CL/cl.hpp:726-734 | appends below capacity, otherwise changes nothing |
| `ClVector.Vector.PopBack` | CL/cl.hpp:740-748 | drops the last element, if any |
| `ClVector.Vector.Clear` | CL/cl.hpp:715-720 | empties the vector |
| `ClVector.Vector.Resize` | CL/cl.hpp:841-860 | truncates or fills up to N, and ignores larger sizes |
| `ClVector.Vector.AssignRange` | CL/cl.hpp:893-901 | keeps exactly the first min(length, N) elements of a range |
| `ClVector.Vector.AssignIterators` | CL/cl.hpp:893-997 | copies an iterator range of a vector of any capacity, also out of the vector being assigned, up to the capacity, and ends on the -1 sentinels of an empty one |
| `ClVector.Vector.Copy` | CL/cl.hpp:754-760 | a copy with its own storage and equal contents |
| `ClVector.Vector.Assign` | CL/cl.hpp:783-796 | contents become the other's, self-assignment included |
| `ClString.String.Sized` | CL/cl.hpp:506-520 | holds the first n characters, terminated, in a fresh buffer; null is allowed for n = 0 |
| `ClString.String.Terminated` | CL/cl.hpp:527-540 | holds the characters before the first NUL, or none for a null source |
| `ClString.String.Copy` | CL/cl.hpp:626-631 | equal contents in a buffer of its own, or none when empty |
| `ClString.String.Assign` | CL/cl.hpp:591-620 | contents become the other's in a fresh buffer; self-assignment keeps the buffer |
| `ClString.String.Resize` | CL/cl.hpp:542-573 | old prefix, then NULs, terminated; a fresh buffer, or none for size 0, whenever the size changes |
| `ClString.Program.Append` | CL/cl.hpp:506-520 | adding a string keeps all others and all buffers private |
| `ClString.Program.AppendCopy` | CL/cl.hpp:626-631 | likewise for a copy |
| `ClString.Program.CopyAssign` | CL/cl.hpp:591-620 | assignment changes one value only; buffers stay private |
| `ClString.Program.ResizeAt` | CL/cl.hpp:542-573 | resizing changes one value only; buffers stay private |

## Modelling decisions

- A step of a participant is one shared read or write, one compare-and-exchange, one retain or release, or one call of
  an OpenCL constructor, whose result is arbitrary. `flag & bit` is modelled by division and remainder.
- `CL/cl.hpp` is modelled with exceptions off; `CL/cl2.hpp` with a parameter that says whether they are on. The platform
  query is part of `Context::makeDefault`, as it is outside Apple systems.
- Retain and release succeed. A handle is given to a wrapper only by someone who owns a reference on it. References
  that the runtime keeps on its own objects count as owned elsewhere.
- The object and the error that a `call_once` maker stores are two steps, the object first; nobody can read in between,
  so their order in the source is not observable.
- The script's weights and numbers are unbounded; an exception is an outcome that carries what was written by then. The
  block count and `--cutoff` enter as the resulting height, `--limit` as an exact fraction.
- The checksum function of account texts is a parameter, so every statement holds for every 40-bit checksum.
- The account tables are written by runs of consecutive characters.
- The comment on `string(const char *, size)` says a null source gives the empty string; the code copies from it whenever
  the size is positive, so a null source is allowed for size 0 only.
- Overflow of the version parser's ints, undefined in C++, wraps in two's complement. The cast of the file's 128-bit height
  to 64 bits is a parameter, since it depends on the multiprecision library for larger heights.

## Left out

- `getDefault` of `CL/cl.hpp` with exceptions: a throw leaves the flag at 2, so the progress statements would not hold.
- Weak memory: the flag protocol is modelled under sequential consistency only.
- The lookup of the device between context and queue creation in `CommandQueue::getDefault`, which touches neither slot.
- Reference counts in the `call_once` chain, which are covered for wrappers in general by the ownership model.
- Failing retain or release calls, and the mutable handle returned by `operator()()`.
- GetVersion: excludes a text without dot or terminator, since the source then reads past its buffer; characters count as their code, also beyond ASCII.
- `--limit` and `--cutoff` given on the command line arrive as strings in the script; only numbers are modelled. Floating-point rounding of the product is replaced by exact arithmetic.
- HTTP requests, argument parsing, console output and file handling of the script.
- `cl::vector` of reference-counted elements, its `operator==` and `back()`; freeing of `cl::string` buffers and failing allocation.
- The byte loads, stores and rotations in `crypto/blake2/blake2-impl.h`: they serve the hash function only, which enters as an arbitrary checksum, so no statement here depends on them.
- The ledger, block processing, voting and networking of the node, apart from the reading and use of bootstrap weights.
- All `enqueue`, `clCreate`, image, program and kernel wrappers, which forward to the runtime.
