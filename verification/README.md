# Verified model of the BitBay node's core

This Dafny project models the parts of the BitBay node that keep redundant state consistent or carry
meaning through an encoding, and proves what they promise. Each module follows one component:

- `AddrManState`, `AddrManOps`, `AddrManEffects`, `AddrManCheck`, `AddrManLoad`, `AddrManSurvival`, `AddrManStore`,
  `AddrMan`: the peer address manager. Five redundant tables as one value with their invariant; the operations;
  what each of them does to the entries; the self test `Check_`; loading, with what survives of any stored list; saving and the round trip; and the object with
  its arrays, each method proved equal to the step on the value.
- `BlockTree`: the block tree with forward links, fork finding and height lookup.
- `TxIndex`, `TxDb`, `MoneySupply`: the index of spent outputs, connecting and disconnecting blocks, and
  the money-supply counter.
- `ChainState`: the tree and the index together: extending the best chain, reorganising, and connecting
  postponed blocks.
- `Balances`, `Freezing`, `BalanceIndex`: the per-address balance records with the frozen queue, and how long an
  output stays frozen.
- `BigNum`, `ScriptCode`, `Multisig`, `ScriptMachine`, `ScriptLaws`, `ScriptEval`, `ScriptFlow`, `ScriptVerify`,
  `ScriptTemplates`: the script language from bytes to acceptance, with what each operation means on stacks spelled
  out element by element.
- `ScriptCompress`, `VarInt`, `Base58`: codecs.
- `Merkle`: the transaction tree and its branches.
- `NetMessages`, `NetSend`: message framing on both sides of a connection.
- `StakeModifier`, `Retarget`: stake-modifier selection and the difficulty target in its compact form.

`dafny verify dfyconfig.toml` checks everything. Hashes, signatures, key validity and point decompression
are function parameters, with what is assumed of them written as a precondition; random draws, clocks,
database outcomes and what a socket accepts are parameters too; the databases are maps.

## Findings

Properties that do not hold of the code for all inputs, each with the exact condition under which they do:

- `SetBestChain` announces the new best block even when a postponed reconnect breaks off; forward links and
  index then stop short of it. They stand at the new best block exactly when the postponed blocks can be read
  and pass their checks and the whole new chain connects from scratch (`ChainState.Node.SetBestChain`).
- Disconnecting a block restores the spent index exactly when none of its transaction ids was present
  before: an overwritten, fully spent transaction allowed by the BIP 30 test is not put back
  (`TxIndex.ConnectDisconnect`, `TxIndex.ReusedIdNotRestored`). After any run the index is that of the remaining chain but for such lost
  entries, all of whose outputs are spent (`TxIndex.RunRepresents`); a chain that reuses no id is undone
  exactly (`ChainState.UndoesExactly`). Disconnecting fails exactly when an input names an output that the index
  has lost, or an id that a later transaction to be disconnected used again (`ChainState.UndoableIff`).
- The supply counter does not subtract OP_RETURN outputs of a coinbase; it follows the unspent value exactly
  when coinbase burns equal burnt outputs spent (`MoneySupply.SupplyTracksUnspent`). A burnt output cannot be
  spent where scripts are run (`MoneySupply.NoBurnsSpent`); below the last checkpoint they are not
  (src/main.cpp:1899).
- `Good_` breaks what `Check_` tests exactly when a known address gets a time that is not positive, and
  `Attempt_` exactly when one gets a negative time; the tables stay in step for every time
  (`AddrManOps.GoodKeeps`, `AddrManOps.AttemptKeeps`).
- `Add_` returns true for every routable unknown address, but keeps it only if the slot that its source
  selects is empty, or is held by an entry that is terrible or has another reference; otherwise the entry is
  deleted at once (`AddrManOps.AddedIff`).
- A stored address list always loads into tables that agree with each other, but the address map and the times
  can be wrong. The result is consistent exactly when no surviving entry has a negative success time or, tried,
  a zero one, and none shares its address with another entry that entered (`AddrManSurvival.LoadConsistent`).
  Which entries enter and survive is told from the list alone. Two tried ports of one address both stay with one
  place in the map (`AddrManSurvival.RepeatedAddressFails`); a tried entry that was never reached stays
  (`AddrManSurvival.UnreachedTriedFails`).
- `Check_` accepts a loaded list exactly when in addition its key is not null, except that it overlooks a repeated
  address of entry 0 whose other entries were all pruned: pruning erased the key, and `Check_` inserts it again
  (`AddrManCheck.LoadPasses`, `AddrManCheck.ErasedAddressUnseen`).
- `Clear` resets everything but the maps of entries and addresses; what it leaves is consistent exactly when they
  were empty (`AddrManOps.ClearedConsistent`).
- `Check_` does not see address-map keys that lead nowhere, and it inserts a missing key of entry 0 instead of
  reporting it; up to that it accepts exactly the consistent managers with a key (`AddrManCheck.PassesIff`,
  `AddrManCheck.DeadKeyUnseen`).
- A script-hash output cannot be spent by an input script that pushes 1000 elements: the hash comparison
  needs room for one more (`ScriptVerify.PayToScriptHash`).
- A Merkle root does not determine the list of leaves: repeating the last leaf of an odd list keeps the root
  (`Merkle.RepeatedLeaf`). Under an injective pair hash, lists of one depth have the same root exactly when
  every way down the full tree, staying at the last element where a layer ends, meets the same leaf
  (`Merkle.SameRootIff`); for lists of different depths a layer of the deeper one takes its place
  (`Merkle.RootsEqualIff`).
- A previous target of one with a spacing below 64 s divides to zero and jumps to the limit
  (`Retarget.RetargetCeiling`).
- `GetNextTargetRequired` reads the height of a missing block exactly when it is asked for the proof-of-stake
  target of an empty chain; the proof-of-work call is safe (`Retarget.GetNextTargetRequired`).
- A message longer than the receive limit is framed and sent, and refused on arrival (`NetSend.ArrivesIff`).

## Model

| member | source | states |
|---|---|---|
| `AddrManOps.Run` | src/addrman.cpp:94-331 | every run of admissible operations from any consistent state ends in a consistent state with the same key |
| `AddrManCheck.RunPasses` | src/addrman.cpp:376-450 | after every such run the self test of a manager with a key reports nothing |
| `AddrManCheck.PassesIff` | src/addrman.cpp:376-450 | what `Check_` adds up, together with the liveness of the address map, is consistency and a key, in both directions; the counts of tried and new entries force the random vector to be a permutation of the ids |
| `AddrManCheck.DeadKeyUnseen` | src/addrman.cpp:376-450 | a manager with an address-map key that leads nowhere passes and is not consistent |
| `AddrManCheck.LoadPasses` | src/addrman.h:308-408 | the self test accepts what an image loads into if and only if its key is not null, every surviving entry has good times, and a surviving entry shares its address with another one that entered only if it is entry 0 and the other did not survive |
| `AddrManCheck.ErasedAddressUnseen` | src/addrman.cpp:376-450 | an image of two entries with one address and one slot loads into a manager that passes and is not consistent |
| `AddrMan.AddrManager.Check` | src/addrman.cpp:376-450 | the method with its set of tried ids and its countdown of references returns zero if and only if the tables pass; for a live address map that is consistency and a key |
| `AddrManOps.ApplyKeeps` | src/addrman.cpp:199-330 | each single operation keeps consistency |
| `AddrManOps.FreshConsistent` | src/addrman.h:413-431 | a newly constructed manager is consistent |
| `AddrManOps.ClearedConsistent` | src/addrman.h:413-431 | what `Clear` leaves, with any maps of entries and addresses, is consistent if and only if both are empty |
| `AddrManOps.GoodKeeps` | src/addrman.cpp:199-244 | for every time, `Good_` keeps the tables in step; it keeps consistency if and only if the address is unknown or the time is positive; a known address ends in the tried table with that success time |
| `AddrManOps.GoodEnters` | src/addrman.cpp:199-244 | the effect on a known address for every time, from any state whose tables agree, whatever its times |
| `AddrManOps.AlwaysInBucket` | src/addrman.cpp:223-238 | an entry outside the tried table is in some new bucket, so the "no bucket found" exit is never taken |
| `AddrManOps.MakeTriedKeeps` | src/addrman.cpp:151-197 | the entry keeps address and success time and is in the tried table; the tables stay in step, and the times in order when the success time is not zero |
| `AddrManOps.EvictToNewKeeps` | src/addrman.cpp:170-191 | making room in a tried slot re-admits the evicted entry to the new table with one reference, all counts exact |
| `AddrManOps.ReleasedEverywhere` | src/addrman.cpp:151-166 | dropping the entry bucket by bucket takes exactly its reference count away |
| `AddrManOps.AttemptKeeps` | src/addrman.cpp:315-331 | `Attempt_` keeps the tables in step for every time, and consistency if and only if the address is unknown or the time is not negative |
| `AddrManOps.ConnectedKeeps` | src/addrman.cpp:473-490 | `Connected_` keeps consistency for every time |
| `AddrManOps.AddKeeps` | src/addrman.cpp:246-313 | `Add_` keeps consistency for every announcement, penalty and random draw, and returns true exactly for a routable unknown address |
| `AddrManOps.AddedIff` | src/addrman.cpp:290-313 | a routable unknown address is known afterwards if and only if its slot is empty or its occupant is terrible or has another reference; then it is in that slot, and otherwise the state is as before but for the id counter |
| `AddrManOps.InsertKeeps` | src/addrman.cpp:290-312 | placing an entry, replacing a terrible or multiply referenced one, or deleting an unplaced newcomer, keeps all five structures consistent |
| `AddrManOps.ShuffleKeeps` | src/addrman.cpp:453-471 | the shuffle of `GetAddr_` keeps consistency |
| `AddrManOps.ShuffleAnswers` | src/addrman.cpp:453-471 | the answer has no repetition, no terrible entry, and no more than the limit |
| `AddrManEffects.FindIs` | src/addrman.cpp:80-92 | `Find`, with the comparison of ports that its callers make, gives the entry with this address and port |
| `AddrManEffects.AttemptNotes` | src/addrman.cpp:315-331 | `Attempt_` on a known address and port sets its last try and counts one attempt; nothing else of it and no other entry changes |
| `AddrManEffects.ConnectedNotes` | src/addrman.cpp:473-490 | `Connected_` moves the last-seen time to the given one exactly when that is more than twenty minutes later; nothing else changes |
| `AddrManEffects.UnknownIgnored` | src/addrman.cpp:199-331 | `Good_`, `Attempt_` and `Connected_` do nothing for an address and port that no entry has |
| `AddrManEffects.GoodMoves` | src/addrman.cpp:199-244 | `Good_` on a known address and port marks it as reached at that time with no attempts, and puts it into the tried slot of its address; the occupant of that slot, if any, is back in the new table in the slot of its own source with one reference; no other record changes |
| `AddrManEffects.RoomKeepsOthers` | src/addrman.cpp:170-191 | the evicted entry takes the slot of its own source with one reference, and an entry is lost exactly when it held that slot by its last reference |
| `AddrManEffects.ClearKeepsRecords` | src/addrman.cpp:137-149 | clearing a slot keeps all records, and loses the occupant exactly when that was its last reference |
| `AddrManEffects.RefreshMeans` | src/addrman.cpp:253-265 | an announcement moves the last-seen time, less the penalty, only if it is later by more than an hour for a peer seen within a day, or by a day; services are only added |
| `AddrManEffects.KnownGains` | src/addrman.cpp:252-312 | a known address gains a reference, in the slot its announcer selects, if and only if the announcement is newer, the entry is not tried and has fewer than eight references, the draw is zero modulo two to the number of references, and the slot is not its own and is empty or held by a terrible entry |
| `AddrManEffects.FreshRecord` | src/addrman.cpp:283-312 | a new address that finds a place is stored as announced, with the penalty taken off its time, never tried, with one reference; other records stay |
| `AddrManEffects.TerribleIs` | src/addrman.cpp:37-58 | exactly which entries are terrible |
| `AddrManEffects.AnswerComplete` | src/addrman.cpp:453-471 | unless the limit is reached, the answer leaves out only terrible entries |
| `AddrManEffects.NewSpread` | src/addrman.cpp:21-30 | addresses announced from one group of sources reach at most 64 new buckets |
| `AddrManEffects.TriedSpread` | src/addrman.cpp:10-19 | addresses of one group reach at most 8 tried buckets |
| `AddrManState.SwapRandomKeeps` | src/addrman.cpp:105-122 | swapping two places keeps the random order and the stored positions inverse to each other, as a permutation |
| `AddrManState.CreateKeeps` | src/addrman.cpp:94-103 | a created entry is in no table and otherwise everything is consistent |
| `AddrManState.DeleteKeeps` | src/addrman.cpp:124-135 | deleting an unreferenced entry removes it alone |
| `AddrManState.ClearNewKeeps` | src/addrman.cpp:137-149 | clearing a slot takes one reference and deletes the entry exactly when it was the last |
| `AddrManState.AttachKeeps` | src/addrman.cpp:301-305 | a new reference to a free slot at the position of the address keeps every reference count equal to the number of buckets that hold the entry |
| `AddrManState.ReleaseKeeps` | src/addrman.cpp:140-146 | the inverse step, with the entry loose when the count reaches zero |
| `AddrManState.EnterTriedKeeps` | src/addrman.cpp:192-196 | entering a free tried slot at the position of the address |
| `AddrManState.EvictKeeps` | src/addrman.cpp:170-179 | leaving a tried slot |
| `AddrMan.AddrManager.constructor` | src/addrman.h:433-435 | the new object is consistent and empty |
| `AddrMan.AddrManager.SwapRandom` | src/addrman.cpp:105-122 | the object step is the value step |
| `AddrMan.AddrManager.Create` | src/addrman.cpp:94-103 | the object step is the value step |
| `AddrMan.AddrManager.Delete` | src/addrman.cpp:124-135 | the object step is the value step; the asserted preconditions (not tried, no reference) hold at every call |
| `AddrMan.AddrManager.ClearNew` | src/addrman.cpp:137-149 | the object step is the value step; the occupant has a reference at every call, as asserted, and the slot is empty afterwards |
| `AddrMan.AddrManager.MakeTried` | src/addrman.cpp:151-197 | the loops over arrays and maps reach the state of the value step; the assertions on the reference count and on the two free slots hold |
| `AddrMan.AddrManager.FindBucket` | src/addrman.cpp:223-233 | the cyclic search from a random bucket finds a reference if and only if there is one |
| `AddrMan.AddrManager.Good` | src/addrman.cpp:199-244 | for every time the object takes the value step; it stays consistent if and only if the address is unknown or the time is positive |
| `AddrMan.AddrManager.Attempt` | src/addrman.cpp:315-331 | for every time the object takes the value step; it stays consistent if and only if the address is unknown or the time is not negative |
| `AddrMan.AddrManager.Connected` | src/addrman.cpp:473-490 | the object stays consistent and takes the value step |
| `AddrMan.AddrManager.Add` | src/addrman.cpp:246-313 | the object stays consistent and takes the value step with its result |
| `AddrMan.AddrManager.GetAddr` | src/addrman.cpp:453-471 | the object stays consistent, the random order is permuted, the answer obeys limit, distinctness and quality, and unless the limit is reached it leaves out only terrible entries |
| `AddrManStore.SaveLoad` | src/addrman.h:257-408 | saving any consistent manager and loading it into a new one is consistent again and loses nothing: same key and counts, same new and tried table up to one renumbering of ids, same entries but for last-try time and random position |
| `AddrManSurvival.LoadConsistent` | src/addrman.h:308-408 | every image, whatever its version, bucket count, collisions, references, times or repeated addresses, loads into tables that agree; it loads into a consistent manager if and only if every surviving entry has a success time that is not negative, and not zero for a tried entry, and no surviving entry shares its address with another one that entered |
| `AddrManSurvival.LoadedEntries` | src/addrman.h:327-400 | the entries in the end are exactly the surviving ones, with their stored fields and the ids in the order in which they entered: a tried entry enters when no earlier tried one has its slot, a new one survives when it takes the slot of its source or some row places it |
| `AddrManSurvival.TablesAre` | src/addrman.h:327-388 | before pruning, each new entry has as many references as the image gives it, counted row by row with the limit of eight and one winner per slot |
| `AddrManSurvival.TakenIff` | src/addrman.h:378-386 | a reference is taken if and only if its slot is free and its entry has fewer than eight |
| `AddrManSurvival.PruneIs` | src/addrman.h:391-400 | pruning removes exactly the entries without a place, and their addresses even where another entry has the same one |
| `AddrManSurvival.MapOk` | src/addrman.h:391-400 | the address map is right in the end if and only if no entry that stays has a twin |
| `AddrManSurvival.RepeatedAddressFails` | src/addrman.h:351-366 | two tried entries with one address, in free slots and with good times, load into an inconsistent manager |
| `AddrManSurvival.UnreachedTriedFails` | src/addrman.h:351-366 | a tried entry with success time zero loads into an inconsistent manager |
| `AddrManLoad.LoadTabled` | src/addrman.h:308-408 | for every image the tables, counts, positions and slots of the loaded manager agree |
| `AddrManStore.AddressesKept` | src/addrman.h:257-408 | the loaded manager knows exactly the same addresses |
| `AddrManStore.SavedCounts` | src/addrman.h:271-296 | the two passes write exactly nNew and nTried entries, so the assertions in them hold |
| `AddrManStore.IndexOf` | src/addrman.h:273-309 | the index written for a new entry is its place among the entries read back |
| `AddrManStore.TriedSlotFree` | src/addrman.h:357-367 | no tried entry of a saved manager collides when read back |
| `AddrManStore.RoomForRef` | src/addrman.h:375-388 | no reference of a saved manager is refused when read back |
| `AddrMan.AddrManager.Serialize` | src/addrman.h:257-311 | the loops write the image of the state |
| `AddrMan.AddrManager.Unserialize` | src/addrman.h:313-408 | into an object without entries, the loops reach exactly the loaded state for every image; it is consistent if and only if the image has good times and no shared address, as above |
| `AddrMan.AddrManager.Clear` | src/addrman.h:413-431 | everything is reset except the maps of entries and addresses |
| `BlockTree.Chain.MainChainIsAncestors` | src/main.h:1155 | a block is in the main chain if and only if it is the best block or one of its ancestors |
| `BlockTree.Chain.FindFork` | src/main.cpp:2777-2789 | the two walks end at the lowest common ancestor |
| `BlockTree.Chain.FindBlockByHeight` | src/main.cpp:986-1003 | with any cached starting point, the result is the ancestor of the best block at that height |
| `BlockTree.Chain.Collect` | src/main.cpp:2791-2802 | the lists of blocks to disconnect and to connect are the branches above the fork, in order |
| `BlockTree.Chain.Connect` | src/main.cpp:2896-2897 | linking one block extends the linked chain by it |
| `BlockTree.Chain.Disconnect` | src/main.cpp:2853-2857 | unlinking the last block shortens the linked chain by it |
| `BlockTree.Chain.Postpone` | src/main.cpp:2921-2934 | the block that the walk stops at is an ancestor of the new best block, has more trust than the old best one unless it is the new best block itself, and its parent has not; the rest is postponed in order, one block for each height above it |
| `BlockTree.FirstAboveUnique` | src/main.cpp:2921-2934 | there is only one such block |
| `BlockTree.Chain.Behind` | src/main.cpp:2947-2972 | links that reach an earlier block of the branch are not those of the announced best block |
| `BlockTree.Chain.AddBlock` | src/main.cpp:3036-3050 | a new block with its parent, height and accumulated trust keeps the tree and the main chain |
| `BlockTree.Chain.AddGenesis` | src/main.cpp:2913-2917 | the first block is new, is genesis and best, and has the trust of its own work |
| `BlockTree.Chain.Unlink` | src/main.cpp:2853-2857 | clearing the links of the old branch leaves the links of the chain up to the fork |
| `BlockTree.Chain.Relink` | src/main.cpp:2860-2865 | setting the links of the new branch gives those of the chain up to its tip |
| `BlockTree.Chain.Adopt` | src/main.cpp:2975-2980 | announcing a best block keeps everything in step if and only if the links already reach it |
| `ChainState.Node.SetBestChain` | src/main.cpp:2907-2980 | succeeds if and only if both sides of the fork can be read and checked, every output spent on the old side is in the index under an id not used again there, and the chain up to the first block that beats the old best one connects from scratch: the ancestor of the new best block that has more trust than the old best one, or is the new best block itself, and whose parent has no more; a failure changes neither index nor links nor best block; after a success links and index stand as many blocks before the new best one as postponed connects are missing, never before that block, and none is missing if and only if those blocks can be read and the whole chain connects |
| `ChainState.Node.Reorganize` | src/main.cpp:2774-2882 | driving the database down one branch and up the other leaves index and links at the new tip, under the same exact condition |
| `ChainState.Node.ReorganizeOrAbort` | src/main.cpp:2940-2944 | a failed reorganisation leaves index and links as they were |
| `ChainState.Node.Undo` | src/main.cpp:2806-2826 | disconnecting the collected blocks in order takes the index to the fork, or fails exactly when a block cannot be read, an output that was spent is not in the index, or its id was used again higher up |
| `ChainState.Node.Redo` | src/main.cpp:2828-2845 | connecting the collected blocks takes the index from the fork to the tip, exactly when all can be read and the new chain connects from scratch |
| `ChainState.Node.Reconnect` | src/main.cpp:2946-2962 | postponed blocks are connected up to the first failure, with links and index in step |
| `ChainState.Node.Attach` | src/main.cpp:2884-2905 | one block is added to index and links together, or to neither |
| `ChainState.Node.AddBlock` | src/main.cpp:3036-3050 | storing and indexing a block moves neither best block nor index, and the index still stands at the best block |
| `ChainState.ConnectsIff` | src/main.cpp:2500-2575 | a block connects to an index that stands at its parent if and only if its whole chain connects from scratch, and the index then stands at the block |
| `ChainState.ContentsAt` | src/main.cpp:2676-2681 | the contents of a chain are the blocks stored for the ancestors of its tip, by height |
| `ChainState.UndoesExactly` | src/main.cpp:2806-2826 | undoing a branch that reuses no id never fails and gives the index of the chain up to the fork |
| `ChainState.UndoableIff` | src/main.cpp:2806-2826 | a branch can be undone if and only if every output its inputs spent is in the index and none of their ids was used again by a later transaction of the branch |
| `TxIndex.SpendAllIs` | src/main.cpp:1880-1947 | spending the inputs in order succeeds if and only if they are distinct and each names an unspent output, and then marks exactly those slots |
| `TxIndex.ConnectIff` | src/main.cpp:2500-2575 | a block connects if and only if all checks pass, no id still has an unspent output in the database, and all inputs are different outputs that the database or an earlier transaction of the block offers unspent; afterwards exactly the outputs offered and not spent can be spent |
| `TxIndex.BuildPassed` | src/main.cpp:1901-1925 | no chain whose blocks connect holds a transaction, coinbase apart, whose checks failed |
| `TxIndex.UnspendAllIs` | src/main.cpp:1394-1430 | the undo succeeds if and only if every input is known, and clears exactly those slots |
| `TxIndex.BlockUndone` | src/main.cpp:2398-2409 | undoing a connected block, last transaction first, leaves the index without the block's transactions and otherwise as before |
| `TxIndex.ConnectDisconnect` | src/main.cpp:2500-2575 | connecting and disconnecting a block restores the index if and only if none of its ids was in it |
| `TxIndex.ReusedIdNotRestored` | src/main.cpp:2508-2526 | a block that uses the id of a fully spent transaction again connects, and disconnecting it loses the old entry |
| `TxIndex.DisconnectIff` | src/main.cpp:1394-1456 | the same condition for any list of transactions, last one first |
| `TxIndex.SpentByExactlyOne` | src/main.h:614-664 | a slot is non-null if and only if a main-chain transaction spends that output of the last transaction with its id, exactly one input does, and the slot points to it |
| `TxIndex.AppendTx` | src/main.cpp:1880-1947 | one more transaction, with a new id or that of a fully spent one, keeps the index equal to what the chain says, spends inside one block included |
| `TxIndex.BuildRepresents` | src/main.cpp:2676-2681 | the index built by connecting any chain of blocks represents their transactions, the last one where an id occurs again |
| `TxIndex.RunRepresents` | src/main.cpp:2774-2865 | after every run of connecting and disconnecting blocks the index is that of the remaining chain built from scratch, but for lost entries whose outputs are all spent |
| `TxIndex.RunSlots` | src/main.h:614-664 | after every run, each slot that the index still has is non-null if and only if one and only one input of the remaining chain spends that output, and points to it |
| `TxIndex.ConnectAllForgets` | src/main.cpp:2500-2575 | lost entries of fully spent transactions change neither whether a block connects nor what it does |
| `TxIndex.DisconnectAllForgets` | src/main.cpp:2398-2409 | what can be disconnected without the lost entries can be disconnected with them, to the same index but for them |
| `TxIndex.DisconnectBuilds` | src/main.cpp:2398-2409 | disconnecting the last block always succeeds on the built index and gives that of the shorter chain, without the entries the block had replaced |
| `TxDb.Database.FetchInputs` | src/main.cpp:1645-1745 | the inputs are found if and only if all are known in the queued changes over the database, the queued ones first |
| `TxDb.Database.ConnectInputs` | src/main.cpp:1880-1947 | the queued changes over the database are the index with the inputs spent; failure exactly when a check or a spend fails |
| `TxDb.Database.ConnectTransaction` | src/main.cpp:2500-2575 | one turn of the block loop, with the BIP 30 test on overwritten transactions; a transaction whose checks failed does not connect |
| `TxDb.Database.ConnectBlock` | src/main.cpp:2500-2575 | the database changes to the connected index or not at all; the block connects if and only if all checks pass, no id still has an unspent output and all inputs are different outputs on offer, and then exactly the outputs offered and not spent can be spent |
| `TxDb.Database.DisconnectInputs` | src/main.cpp:1394-1456 | the database step is the value step |
| `TxDb.Database.DisconnectBlock` | src/main.cpp:2398-2409 | the database is the disconnected index |
| `TxDb.UnknownFails` | src/main.cpp:1880-1947 | a spend of an unknown output always fails |
| `MoneySupply.UnspentAfterTx` | src/main.cpp:2536-2565 | one transaction, with a new id or that of a fully spent one, changes the total unspent value by its outputs less its inputs, burnt value apart |
| `MoneySupply.TotalsTrackUnspent` | src/main.cpp:2536-2565 | the same for every part of a block, from any running totals |
| `MoneySupply.BlockTracksUnspent` | src/main.cpp:2536-2565 | for every block that connects to an index of its chain, the totals track the unspent value, up to coinbase burns and spent burns |
| `MoneySupply.SupplyTracksUnspent` | src/main.cpp:2634-2637 | the supply counter moves by the change in unspent value if and only if coinbase burns equal burnt outputs spent |
| `MoneySupply.StakeBlockSupply` | src/main.cpp:2602-2618 | in an accepted proof-of-stake block whose scripts were run the supply moves by exactly the change in unspent value, and rises by at most the fee-free subsidy |
| `MoneySupply.NoBurnsSpent` | src/main.cpp:1899-1901 | a block whose scripts were run spends no burnt output |
| `ScriptVerify.ReturnNeverAccepts` | src/script.cpp:1940-1978 | an output that begins with OP_RETURN is never accepted, whatever the input script |
| `ScriptVerify.ReturnFails` | src/script.cpp:676-678 | running a script that begins with OP_RETURN fails on every stack |
| `MoneySupply.BlockTotals` | src/main.cpp:2536-2565 | the loop computes the totals |
| `MoneySupply.SupplyOfChain` | src/main.cpp:2634-2637 | the counter of a whole chain is its unspent value, up to the two burn terms |
| `MoneySupply.SupplyOfRun` | src/main.cpp:2774-2865 | the same after every run with reorganisations |
| `Balances.EveryRunBalances` | src/main.cpp:2006-2203 | after every run of `ConnectUtxo` and `ProcessFrozenQueue` from empty tables, each transaction spending coins created earlier and not spent since into new outpoints, each address's latest balance is the value of its live coins, which is the sum of its unspent and frozen rows; its frozen amount is the sum of its queue entries; and frozen table and queue hold the same outputs |
| `Balances.RunBalances` | src/main.cpp:2006-2203 | the same from any balanced state whose tables hold the live coins |
| `Balances.GenuineConnectable` | src/main.cpp:2018-2130 | a transaction on live coins and new outpoints finds its inputs recorded and its outputs not |
| `Balances.ConnectTracks` | src/main.cpp:2006-2153 | the tables then hold exactly the live coins after the transaction |
| `Balances.ReleaseTracks` | src/main.cpp:2157-2203 | releasing an entry moves a row between tables and loses no coin |
| `Balances.HoldingsAreCoins` | src/main.cpp:2006-2153 | the rows of an address add up to the value of its live coins |
| `Balances.ReleaseNeverFails` | src/main.cpp:2157-2203 | in every run whatever is due can be released, so none of the error exits is taken |
| `Balances.ConnectBalances` | src/main.cpp:2006-2153 | one transaction keeps the balances |
| `Balances.SpendKeeps` | src/main.cpp:2018-2077 | one input, with its pending deductions, keeps the running balances |
| `Balances.CreateKeeps` | src/main.cpp:2078-2130 | one output, frozen or not, keeps the running balances |
| `Balances.CommitBalances` | src/main.cpp:2131-2153 | writing the pending changes gives balanced records |
| `Balances.ReleaseBalances` | src/main.cpp:2157-2203 | one due entry is always releasable, and its release keeps the balances |
| `Balances.ReleaseDue` | src/main.cpp:2157-2203 | exactly the entries that are due leave the queue |
| `Freezing.OutputsRest` | src/main.cpp:2078-2130 | every output of a genuine transaction rests in the frozen table and the queue, with its amount and lock time, if and only if it is flagged and, in a coin stake, the last flagged input was still locked; otherwise in the unspent table, and in no other |
| `Freezing.OrdinaryFreezes` | src/main.cpp:2098-2130 | an ordinary transaction freezes exactly its flagged outputs |
| `Freezing.StakeFreezes` | src/main.cpp:2018-2130 | a coin stake freezes a flagged output if and only if its last flagged input was in the queue or locked for more than 1000 s after the block |
| `Freezing.ReleaseFrees` | src/main.cpp:2157-2203 | a release frees exactly the coins whose lock time has come |
| `Freezing.StaysFrozen` | src/main.cpp:2006-2203 | over any run, a frozen coin that is not spent stays frozen exactly until a release at or after its lock time |
| `Freezing.FrozenUntilDue` | src/main.cpp:2006-2203 | after any run from empty tables, an unspent output of an ordinary transaction is frozen if and only if it is flagged and no release since then was at or after its lock time |
| `Freezing.HistoryGrows` | src/main.cpp:2131-2153 | each address that a transaction pays or spends from gets one more record, whose debit or credit carries its last balance to the new one; other histories stay |
| `Freezing.ReleaseRecord` | src/main.cpp:2162-2200 | a release appends one record with the amount as a debit, the balance as before and the frozen amount less by it, and moves the coin to the unspent table |
| `BalanceIndex.Tables.ConnectUtxo` | src/main.cpp:2006-2153 | the table updates are the value step |
| `BalanceIndex.Tables.SpendInput` | src/main.cpp:2018-2077 | the table updates are the value step |
| `BalanceIndex.Tables.CreateOutput` | src/main.cpp:2078-2130 | the table updates are the value step: a flagged output goes to the frozen table and the queue, unless a coin stake's inputs were not locked, and any other to the unspent table |
| `BalanceIndex.Tables.WriteHistory` | src/main.cpp:2131-2153 | the table updates are the value step |
| `BalanceIndex.Tables.ProcessFrozenQueue` | src/main.cpp:2157-2203 | the tables stay balanced, exactly the due entries leave the queue, and no balance changes |
| `BalanceIndex.Tables.ReleaseEntry` | src/main.cpp:2162-2200 | the table updates are the value step |
| `BigNum.RoundTrip` | src/bignum.h:482-517 | `setvch` undoes `getvch` for every number |
| `BigNum.MagnitudeOfBytes` | src/bignum.h:500-517 | a byte string without a redundant top byte is the encoding of its value |
| `BigNum.SignMagnitude` | src/bignum.h:482-498 | the bytes are a magnitude in base 256, least digit first, whose top bit is the sign |
| `BigNum.EncodeFits` | src/bignum.h:500-517 | a number is written in k + 1 bytes if and only if its magnitude fits 8k + 7 bits |
| `BigNum.Shortest` | src/bignum.h:482-517 | no byte string for a number is shorter than the one written |
| `ScriptCode.ReadWritten` | src/script.h:463-507 | reading undoes writing for every operation, whatever follows |
| `ScriptCode.WrittenRead` | src/script.h:463-507 | the bytes consumed by a read are those of the operation |
| `ScriptCode.PushedData` | src/script.h:381-429 | data of every length comes back from the push operator's choice of opcode |
| `ScriptCode.PrintParse` | src/script.h:463-507 | printing the parsed operations and the unparsable tail gives the script |
| `ScriptCode.ParsePrint` | src/script.h:463-507 | parsing printed operations gives them back |
| `ScriptCode.FindAndDelete` | src/script.h:523-536 | for a pattern that is one operation, the result is the script with that operation filtered out of the parsed list, its tail kept, and the number removed |
| `Multisig.CheckMultisig` | src/script.cpp:1253-1281 | the greedy loop succeeds if and only if an order-preserving injection of signatures into keys exists with every pair valid |
| `Multisig.TakeKey` | src/script.cpp:1263-1272 | taking a valid pair never loses a match |
| `Multisig.SkipKey` | src/script.cpp:1263-1272 | skipping a key that does not fit never loses a match |
| `Multisig.TooFewKeys` | src/script.cpp:1276-1279 | stopping early when too few keys remain is right |
| `Multisig.CombineMultisig` | src/script.cpp:2074-2123 | a merge that collected the required count is accepted by the matching loop; its signatures come from the two lists; and if no signature fits two keys it collects as many as there are signed keys, up to the required number |
| `Multisig.MatchesReversed` | src/script.cpp:1253-1281 | the order in which the stack hands the lists over does not matter |
| `ScriptMachine.MatchLoopDecides` | src/script.cpp:1217-1300 | inside the interpreter, without the strict-encoding flag, the loop decides the matching |
| `ScriptMachine.ExecKeepsLimits` | src/script.cpp:552-1307 | every executed operation keeps elements within 520 bytes and the operation count within 201 |
| `ScriptLaws.TrueIsNonzero` | src/script.cpp:48-58 | an element is true if and only if the number it denotes is not zero, negative zero included |
| `ScriptLaws.PushesNumber` | src/script.cpp:547-574 | the small-number operations push elements that denote -1 and 1 to 16; other pushes push their data |
| `ScriptLaws.ShortDiagrams` | src/script.cpp:697-842 | what DROP, DUP, IFDUP, 2DROP, 2DUP, NIP, OVER, SWAP, TUCK, 3DUP and ROT leave, written out |
| `ScriptLaws.LongDiagrams` | src/script.cpp:727-754 | the same for 2OVER, 2SWAP and 2ROT |
| `ScriptLaws.Underflow` | src/script.cpp:697-903 | a stack operation fails if and only if the stack has fewer elements than its diagram |
| `ScriptLaws.SwapAndRotate` | src/script.cpp:817-832 | OP_SWAP twice and OP_ROT three times change nothing |
| `ScriptLaws.AltStack` | src/script.cpp:683-695 | OP_TOALTSTACK and OP_FROMALTSTACK move one element and undo each other |
| `ScriptLaws.Sizes` | src/script.cpp:765-903 | OP_DEPTH and OP_SIZE push elements that denote the number of elements and of bytes |
| `ScriptLaws.PickAndRoll` | src/script.cpp:801-815 | OP_PICK copies the element that as many elements cover as the top one says, and OP_ROLL moves it |
| `ScriptLaws.PickRefuses` | src/script.cpp:801-815 | both fail on a number that is too long, negative or not below the number of elements left |
| `ScriptLaws.Equality` | src/script.cpp:941-966 | OP_EQUAL compares bytes, and OP_EQUALVERIFY goes on if and only if they are equal |
| `ScriptLaws.Verify` | src/script.cpp:664-678 | OP_VERIFY goes on if and only if the top element is not zero; OP_RETURN never does |
| `ScriptLaws.UnaryMeans` | src/script.cpp:971-1015 | what the operations on one number push denotes the stated function or relation of the number denoted by the operand |
| `ScriptLaws.BinaryMeans` | src/script.cpp:1017-1124 | the same for sums, differences, minimum, maximum and the relations of two numbers |
| `ScriptLaws.NumbersEqual` | src/script.cpp:1083-1121 | OP_NUMEQUALVERIFY goes on if and only if the numbers are equal |
| `ScriptLaws.Within` | src/script.cpp:1126-1138 | OP_WITHIN includes the lower bound and excludes the upper one |
| `ScriptLaws.LongOperands` | src/script.cpp:971-1138 | a missing numeric operand or one of more than four bytes ends evaluation |
| `ScriptLaws.LockTimes` | src/script.cpp:582-621 | where enabled, OP_CHECKLOCKTIMEVERIFY changes nothing and goes on if and only if the input is not final and the top element, of at most five bytes, is a time of the transaction's kind that the transaction's has reached |
| `ScriptLaws.CheckSig` | src/script.cpp:1178-1215 | OP_CHECKSIG leaves true if and only if signature and key are well formed and the signature is valid for the code it covers; malformed ones end evaluation under strict encoding; the VERIFY form goes on if and only if true |
| `ScriptLaws.SignedCodeIs` | src/script.cpp:1188-1192 | the code that signatures cover is the script from the last separator on, parsed, without the operations that push one of them, its unreadable tail kept |
| `ScriptLaws.CheckMultisigMeans` | src/script.cpp:1217-1305 | on a stack spelled as dummy, signatures, their number, keys and their number, without strict encoding: the new top is true if and only if the signatures match, in order, keys they verify under; what is left is the stack below the dummy; the VERIFY form goes on if and only if true |
| `ScriptLaws.DummyRefused` | src/script.cpp:1217-1305 | it fails on a dummy that has to be empty and is not |
| `ScriptLaws.CountsRefused` | src/script.cpp:1222-1245 | it fails on a number of keys that is not from 0 to 20 or exceeds the operation limit, and on a number of signatures that is not from 0 to that of the keys |
| `ScriptEval.FlatEvalIsTree` | src/script.cpp:528-662 | the loop with its vector of flags computes what a recursive interpreter over nested IF/ELSE/ENDIF blocks computes, and refuses unbalanced scripts |
| `ScriptEval.TreeIsFlat` | src/script.cpp:528-662 | the same for one block in any surrounding, executed or skipped |
| `ScriptEval.FlatRunKeepsLimits` | src/script.cpp:523-549 | in a run that succeeds, every prefix leaves all elements within 520 bytes and both stacks within 1000 elements together |
| `ScriptEval.EvalKeepsLimits` | src/script.cpp:508-1324 | an accepted evaluation ends within the limits |
| `ScriptFlow.Selects` | src/script.cpp:636-650 | an executed IF takes its condition from the stack and selects the first branch if and only if it is not zero; NOTIF, if and only if it is |
| `ScriptFlow.OneBranch` | src/script.cpp:636-662 | of IF, ELSE and ENDIF exactly one branch is run, on the stack without the condition, and leaves what is left |
| `ScriptFlow.SkippedLeaves` | src/script.cpp:529-548 | a block that is skipped changes neither stack nor separator |
| `ScriptFlow.RunObeys` | src/script.cpp:532-545 | in a run that succeeds at most 201 operations beyond the pushes occur, skipped ones counted, no pushed element is over 520 bytes, and no disabled or VERIF operation occurs even in a branch that is skipped |
| `ScriptFlow.EvalObeys` | src/script.cpp:524-545 | the same for every script that is accepted, which is at most 10000 bytes long and can be read to its end |
| `ScriptFlow.NopsAndUnknown` | src/script.cpp:623-634 | the NOPs do nothing, or end evaluation where discouraged; operations that do not exist end it |
| `ScriptEval.EvalScript` | src/script.cpp:508-1324 | the loop over bytes terminates, reads no stack element out of range, and agrees with the evaluation of the parsed instructions |
| `ScriptVerify.PayToScriptHash` | src/script.cpp:1962-1975 | a script-hash output is accepted if and only if the input script pushes only, its last element hashes to the given value, and that element run as a script on the rest ends true (the Specification section of BIP 16), with fewer than 1000 elements pushed |
| `ScriptVerify.ScriptHashRun` | src/script.cpp:2233-2240 | what running the three-operation pattern does to every stack |
| `ScriptVerify.VerifyScript` | src/script.cpp:1940-1978 | the method accepts only if the output script, run on what the input script left, ends with a nonzero top element; for an output that is no script hash that is an if and only if, and for any output it accepts if and only if the three runs do |
| `ScriptVerify.AcceptedLeavesTrue` | src/script.cpp:1940-1978 | the same for acceptance itself |
| `ScriptVerify.ScriptHashTemplate` | src/script.cpp:2233-2240 | a script-hash output is exactly HASH160, a push of 20 bytes, EQUAL |
| `ScriptTemplates.KeyHashRun` | src/script.cpp:1940-1978 | what DUP HASH160 <h> EQUALVERIFY CHECKSIG does to every stack |
| `ScriptTemplates.PayToKeyHash` | src/script.cpp:1940-1978 | such an output is accepted if and only if the last element that the input script leaves is a well-formed key that hashes to h, and the one before it a signature that is valid under it for the output script without that signature |
| `ScriptTemplates.TwoPushes` | src/script.cpp:548-550 | an input script that pushes two elements leaves those two |
| `ScriptTemplates.SpendKeyHash` | src/script.cpp:1940-1978 | an input script of a signature and a key spends such an output if and only if the key has that hash and the signature is valid under it |
| `ScriptVerify.CheckPushOnly` | src/script.h:560-580 | true if and only if every operation parses and is a push |
| `Merkle.BuildMerkleTree` | src/main.h:873-888 | the flat vector is the concatenation of all layers, and the result is the root |
| `Merkle.GetMerkleBranch` | src/main.h:890-902 | the branch read out of the vector is that of the leaf |
| `Merkle.CheckMerkleBranch` | src/main.h:904-917 | the loop climbs the branch for every index; index -1 gives zero |
| `Merkle.RootJoins` | src/main.h:873-888 | the root over two halves of 2^d leaves each is the hash of the left root and the right root, in this order |
| `Merkle.BranchReachesRoot` | src/main.h:890-917 | for every leaf count and index the branch leads from the leaf to the root and has the depth of the tree |
| `Merkle.OnlyTheLeaf` | src/main.h:904-917 | with an injective pair hash, a branch of that depth reaching the root at index i starts from leaf i and is its branch |
| `Merkle.RootFixesLeaves` | src/main.h:873-888 | with an injective pair hash, the root fixes the leaves among lists of one length |
| `Merkle.RepeatedLeaf` | src/main.h:873-888 | but not their number: repeating the last leaf of an odd list keeps the root |
| `Merkle.SameRootIff` | src/main.h:873-888 | with an injective pair hash, lists of one depth have the same root if and only if every way down meets the same leaf in both |
| `Merkle.RootsEqualIff` | src/main.h:873-888 | lists of different depths have the same root if and only if the layer of the deeper one that is as deep as the other meets it in the same way |
| `NetMessages.FeedSplit` | src/net.cpp:497-523 | feeding a stream in two parts is feeding it whole, refusals included |
| `NetMessages.AnySplit` | src/net.cpp:497-523 | the same for every way of cutting it into chunks |
| `NetMessages.FeedWellFormed` | src/net.cpp:497-567 | all messages but the last are complete, none is over the size limit, and the bytes held are exactly those fed, up to a refusal |
| `NetMessages.OnlyReading` | src/net.cpp:497-567 | the result is the only well-formed reading of the stream, and a stream is refused exactly when a prefix reads as a header over the limit |
| `NetMessages.Canonical` | src/net.cpp:497-567 | every well-formed list of messages is what its own bytes produce |
| `NetMessages.NetMessage.IsComplete` | src/net.h:158-163 | a complete message's buffer has exactly the declared size |
| `NetMessages.NetMessage.ReadHeader` | src/net.cpp:525-552 | takes what the header lacks, and refuses a declared size over the limit |
| `NetMessages.NetMessage.ReadData` | src/net.cpp:554-567 | takes what the message lacks, at least one byte, whatever the buffer was allocated to |
| `NetMessages.Node.ReceiveMsgBytes` | src/net.cpp:497-523 | the method is the byte-by-byte reference on every chunk; it uses at least one byte per turn; it returns false exactly on a refused, non-empty chunk |
| `NetSend.FramedComplete` | src/net.h:403-423 | a framed message declares the size it has if and only if that fits 32 bits |
| `NetSend.Sender.EndMessage` | src/net.h:403-436 | the message is framed and queued; what the socket took plus what is pending is always all messages ended |
| `NetSend.Sender.PushMessage` | src/net.h:440-461 | beginning a message, appending its payload and ending it ends exactly that framed message, complete if and only if its size fits 32 bits, and leaves the buffer empty for the next one |
| `NetSend.Sender.SocketSendData` | src/net.cpp:570-611 | for every behaviour of the socket the bytes sent are the next ones due, offset and total size stay exact, and a willing socket empties the queue |
| `NetSend.ArrivesIff` | src/net.cpp:497-567 | framed messages arrive as sent if and only if none is over the size limit |
| `NetSend.Delivered` | src/net.cpp:497-611 | at any moment the finished messages at the receiver are a prefix of those sent, and all of them once nothing is pending |
| `NetSend.EndToEnd` | src/net.cpp:497-611 | the same for the two objects and every cutting of the bytes on the way |
| `StakeModifier.SelectBlock` | src/kernel.cpp:54-94 | the choice is the least selection hash among unselected candidates up to the stop time, or the earliest unselected one; nothing only if all are taken or one is not indexed |
| `StakeModifier.ChoiceUnique` | src/kernel.cpp:54-94 | there is only one such choice |
| `StakeModifier.ComputeNextStakeModifier` | src/kernel.cpp:109-191 | fails only if no block of the chain generated a modifier; keeps the last modifier within its interval; else its bits come from a full run of selections |
| `StakeModifier.RunDistinct` | src/kernel.cpp:146-164 | the selected blocks are pairwise distinct |
| `StakeModifier.RunUnique` | src/kernel.cpp:146-164 | the run of selections is determined |
| `StakeModifier.ModifierBit` | src/kernel.cpp:155-157 | bit r of the modifier is the entropy bit of the block of round r |
| `StakeModifier.StopTimes` | src/kernel.cpp:38-49 | the stop time grows with every round and ends at the interval boundary before the previous block |
| `StakeModifier.SectionsAre` | src/kernel.cpp:38-49 | each round adds its own section, 37800 s divided by a number that falls from 189 to 63: 200 s in the first round, 600 s in the last |
| `StakeModifier.StakeDivided` | src/kernel.cpp:70-84 | the selection hash of a proof-of-stake block is divided by 2^32, that of a proof-of-work block is not |
| `StakeModifier.StakeFavoured` | src/kernel.cpp:54-94 | so a proof-of-stake block within the stop time is preferred to every proof-of-work block whose hash, times 2^32, is above its own |
| `StakeModifier.CandidatesSorted` | src/kernel.cpp:134-142 | sorting the stamps and looking them up gives the candidates in time order, each once |
| `StakeModifier.CandidatesAre` | src/kernel.cpp:128-142 | the candidates are exactly the latest blocks of the chain whose times reach back to the interval start, by time and then by hash |
| `StakeModifier.Generate` | src/kernel.cpp:128-164 | candidates are collected, sorted and selected without ever running out |
| `Retarget.CompactRounds` | src/bignum.h:519-558 | compacting and expanding clears all but the leading bytes |
| `Retarget.CompactMeans` | src/bignum.h:519-535 | a compact number with a size of three or more stands for its last 23 bits times 256 to the size less three, negative when the sign bit is set |
| `Retarget.RoundingLoss` | src/bignum.h:537-558 | the relative loss is below 2^-15, and small numbers lose nothing |
| `Retarget.CompactStable` | src/bignum.h:519-558 | a second pass through the compact form changes nothing |
| `Retarget.ExpandedIsExact` | src/bignum.h:519-558 | what any compact number expands to is kept by compacting again |
| `Retarget.GetLastBlockIndex` | src/main.cpp:1202-1206 | the last block of the kind, or the first block |
| `Retarget.GetNextTargetRequired` | src/main.cpp:1208-1245 | a missing block is read if and only if the chain is empty and the proof-of-stake target is asked for; otherwise the limit for the first blocks, else the retarget over the last two blocks of the kind |
| `Retarget.SpacingIs` | src/main.cpp:1222-1232 | in every protocol version: a negative spacing counts as on schedule above height 19935, and in the third version one over ten times the schedule counts as that |
| `Retarget.NextTargetIs` | src/main.cpp:1234-1245 | the next target is the previous one times the weighted spacing rounded down, and the limit in place of a result that is zero or above it |
| `Retarget.RetargetBounds` | src/main.cpp:1222-1245 | in the third protocol version the target in force is positive, within the limit, and above 7/8 of the previous one up to integer division and the compact loss |
| `Retarget.RetargetCeiling` | src/main.cpp:1222-1245 | it is at most 17/8 of the previous one if and only if that is at least two or the spacing at least 64 s |
| `Retarget.OnSchedule` | src/main.cpp:1222-1245 | on schedule the target in force stays exactly what it was |
| `Retarget.RetargetMonotone` | src/main.cpp:1222-1245 | a longer spacing never makes the target smaller |
| `Retarget.ChainRetarget` | src/main.cpp:1208-1245 | all of this over a chain |
| `Retarget.RequiredBounds` | src/main.cpp:1208-1245 | the bounds for the target required between any two blocks |
| `Base58.DecodeEncode` | src/base58.h:33-119 | decoding undoes encoding for every byte string, leading zeros and the empty one included |
| `Base58.EncodeDecode` | src/base58.h:33-119 | encoding undoes decoding for every text over the alphabet |
| `Base58.TextRoundTrip` | src/base58.h:33-119 | the same through the parser that skips spaces |
| `Base58.AcceptedIff` | src/base58.h:78-119 | a text is accepted if and only if it is a plain text with spaces around it |
| `Base58.DecodedPadded` | src/base58.h:78-119 | and then means what the plain text means |
| `Base58.EncodeBase58` | src/base58.h:33-69 | the division and padding loops compute the encoding |
| `Base58.Alphabet` | src/base58.h:30-30 | the alphabet, spelled out |
| `Base58.EncodedMeans` | src/base58.h:33-69 | the text is the number of the bytes, most significant digit and byte first, with as many leading ones as leading zero bytes |
| `Base58.DecodeBase58` | src/base58.h:78-119 | the multiplication, trimming and padding steps compute the decoding |
| `VarInt.WriteValue` | src/serialize.h:366-380 | every number is written as a terminated string that means it |
| `VarInt.WriteOfValue` | src/serialize.h:366-394 | every terminated string is what its number is written as |
| `VarInt.ReadWrite` | src/serialize.h:366-394 | reading gives the number and what follows it |
| `VarInt.WriteRead` | src/serialize.h:366-394 | whatever is read is in the one written form |
| `VarInt.BufferFits` | src/serialize.h:367-368 | the temporary buffer holds every 32- or 64-bit value and is needed in full by the largest |
| `VarInt.GetSizeOfVarInt` | src/serialize.h:354-364 | the announced size is the written size |
| `VarInt.WriteVarInt` | src/serialize.h:366-380 | the loop through the buffer writes the code, no index out of range |
| `VarInt.ReadVarInt` | src/serialize.h:382-394 | the loop in a fixed width reads what reading with dropped high bits gives, which is the exact value modulo the range |
| `VarInt.FixedWidth` | src/serialize.h:382-394 | reading in a fixed width returns a written number if and only if the number is one of that width |
| `VarInt.ReadOfWritten` | src/serialize.h:277-330 | a size comes back if and only if it is within the limit, and is refused otherwise |
| `VarInt.CompactSizeIs` | src/serialize.h:277-299 | a size is one byte below 253, else 253, 254 or 255 before two, four or eight bytes, least significant first, the fewest that hold it |
| `VarInt.WrittenOfRead` | src/serialize.h:301-330 | whatever is read has the one canonical form |
| `ScriptCompress.ShortForms` | src/script.cpp:2433-2461 | the short form of a payment to a key hash, a script hash, a compressed or a valid uncompressed key is its number, with the parity for keys, before the hash or the first coordinate |
| `ScriptCompress.OnlySpecial` | src/script.cpp:2402-2461 | no other script has a short form |
| `ScriptCompress.DecompressCompress` | src/script.cpp:2433-2513 | decompression undoes compression on every special script |
| `ScriptCompress.RoundTrip` | src/script.h:656-681 | every script whose length fits the prefix comes back, whatever follows and whatever it is read into |
| `ScriptCompress.PrefixFree` | src/script.h:656-681 | no serialization is a prefix of another |
| `ScriptCompress.SerializeSize` | src/script.h:646-653 | the announced size is exact and at most five bytes over the script |

## Left out

- Peg, fractions, bridge and coin mints: the implementing files are not part of this model, and transactions that mint are excluded.
- `DisconnectUtxo`: it is not an exact inverse of `ConnectUtxo`; only the connecting side of the balance index is modelled.
- `CAddrMan::Select_` and `GetChance`: floating point and probabilistic termination.
- `Solver`, signing and `CombineSignatures` other than the multisig merge: they only dispatch on templates.
- The stack that `EvalScript` leaves behind when it fails: callers discard it.
- Hash functions, ECDSA, key derivation: parameters.
- Byte formats of the databases, of block files and of the saved address list: records and maps stand for them; locks, logging, threads and the wallet are not modelled.
- `GetKernelStakeModifier` and the stake kernel check: they only read the modifiers.
- Widths of integers are unbounded except where the text says otherwise (VarInt, compact targets, message sizes, script lengths).
- AddrManStore.SaveLoad: is stated for a newly constructed manager, because `Clear` does not reset the maps of entries and addresses.
- AddrMan.AddrManager.Unserialize: is stated for an object without entries, since `Clear` leaves the maps as they are; it counts `nNew` and `nTried` up as entries are read instead of setting them first, with the same final values.
- AddrMan.AddrManager.Check: the ids of entries are assumed to lie below the id counter, as every operation keeps them; the error code tells only that a test failed, not which one.
- ChainState.Node.SetBestChain: reading a block, the checks that the index does not make and the commit of its own transaction are one yes/no input per block, the same every time; the memory pool is not modelled.
- TxDb.Database.ConnectInputs: maturity, time, value range, signature and fee checks are one flag of the transaction.
- TxDb.Database.ConnectTransaction: takes the same flag.
- TxDb.Database.ConnectBlock: takes the same flag; the peg and balance tables are apart.
- Merkle.RootsEqualIff: is stated for lists that are not empty; the root of an empty list is zero.
- Multisig.CheckMultisig: models the matching without the strict-encoding flag, which can only abort the script earlier.
- Balances.EveryRunBalances: a coin's address, amount and lock time are taken from the output that created it; reading them back from a script is not modelled.
- MoneySupply.StakeBlockSupply: is stated where scripts are run, that is above the last checkpoint.
- NetSend.Sender.SocketSendData: closing the socket on an error is not modelled.
- NetSend.Sender.PushMessage: the payload is the bytes that serialization gives, and the checksum is an input.
- StakeModifier.ComputeNextStakeModifier: the modifier interval is the default of 600 s, and combining bits with OR is addition because the bits are disjoint.
- ScriptCompress.RoundTrip: scripts of 2^32 - 6 bytes and more do not fit the 32-bit length prefix.
