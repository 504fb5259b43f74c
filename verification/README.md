# Verification of a Sukhavati full node's consensus core

This project models, in Dafny 4.11, the parts of the node on which every node must agree bit for bit, and proves
what those parts promise for all inputs, all reachable states and all runs.

**secp256k1 arithmetic.** Field elements are ten 26-bit words with lazy carries. Words are bounded integers, so that
no wrap-around in multiplication, squaring, negation, scaling or normalization is a proof obligation, and the informal
magnitude comments of the code become parameters of every operation. On top of the words sit inversion and square
roots by exponentiation, the four specialised Jacobian additions and two doublings, the endomorphism split, the
non-adjacent form, the precomputed byte-window table with its serialized layout, key decompression, the public key
formats and DER signatures. The main results are that `ScalarMult` returns k * P and `ScalarBaseMult` returns k * G for
every byte string k, and that parsing and serializing keys and signatures are inverse to each other. Objects that the
code passes by pointer are objects here, so overlapping arguments and the order of writes are part of the model; values
that never escape a routine are values.

Three facts about the curve are hypotheses, written as ghost predicates that the statements require: P is prime, in the
form of Fermat's little theorem (`Curve.Fermat`); the chord-and-tangent law makes the curve an abelian group
(`CurveGroup.GroupLaw`); every point has an order dividing N and the map (x, y) to (beta x, y) multiplies by lambda
(`ScalarMultiplication.OrderFacts`). Constants follow section 2.4.1 of SEC 2. Statements about points multiply with
`Modular.Times`, repeated addition, which keeps polynomial arithmetic over the 256-bit prime out of the contracts.

**Chain state.** `Ledger.View` defines what a history of transactions says about a hash without reference to the code:
the latest transaction of that hash and which of its outputs were spent since. The transaction store, its connect and
disconnect loops and the lookup from any node of the block tree are proved against that view. The block tree, the fork
choice, reorganization with failures at every point, and the acceptance of blocks in any order through the orphan pool
are proved to keep the main-chain flags, the database and the block cache consistent, and to end at a best node that
does not depend on the order of arrival. The input and coinbase checks of a block are proved to imply that the history
stays valid and that the unspent value grows by at most the subsidy of the height plus the one-time allocations, and
storing and deleting blocks to keep the tables the reflection of the chain, so that both hold over every run of extensions
and sound reorganizations from the first block on.

**Pool, script validation, staking.** The transaction pool keeps its outpoint index exact over recursive removal,
orphan promotion and block attach and detach. The script validator is a state machine over every interleaving of its
coordinator and workers. The staking rank and the split of the pool reward are deterministic and conserve the reward.

Hashes are numbers. That a hash names one transaction or header, and that hashing admits no cycles, are stated where
they are needed (`TxLookup.NamesItself`, `TransactionPool.TxPool.Genuine`, `BlockProcessing.Injective`). Checks the model
does not look into (proof of capacity, scripts, policy, storage errors) are nondeterministic outcomes. Amounts are
numbers with the code's range checks.

Where the code and its comments or promises disagree the model follows the code:

- The database marks the further inputs of a coinbase as spent (database/ldb/tx.go:535-553) while connecting and
  disconnecting the transaction store skips coinbases. Off the best node the store is therefore the replayed view if and
  only if the branch is in step (`TxLookup.SeenIsView`). A branch whose blocks all pass is within its allowances whether in
  step or not (`ConnectedChain.CheckBranch`), but it is valid if and only if no transaction of it spends what an earlier
  coinbase of it spent, and none repeats a hash of which an output that an undone coinbase left marked is still unspent
  (`Branches.BranchValid`). `ChainWitnesses.TwoSpenders` is a branch that passes and is not valid.
- Attaching a block to the pool skips its coinbase too. A pooled transaction may keep sharing an input with it, exactly when
  a survivor spends one of its further inputs (`TransactionPool.TxPool.SyncAttachBlock`), and an orphan that waited for it
  is not tried again; `TransactionPool.CoinbaseOverlooked` does both.
- At height 0 the unused bits of the spent flags are meant to be set and are not, so that a transaction there whose outputs
  do not fill whole bytes stays in the table of unspent transactions when all are spent (`TxTables.WholeMeans`,
  `ChainWitnesses.FirstStays`); the tables are proved to reflect the chain with that exception.
- A template, which has no public key in its header, skips the coinbase checks (`ChainWitnesses.KeylessTemplate`). It is
  never connected, so the bound on the unspent value is not concerned (`ConnectedChain.Node.ProcessBlock`).
- After a reorganization the log statement reads the first detached node. Without a fault in the same step it crashes
  exactly when the new tip descends from the old best node and is not its child (`ChainState.Chain.ConnectBestChain`). That
  cannot happen in runs without an earlier failure (`ChainState.Chain.ProcessAll`), and does after a reorganization that
  failed between disconnecting and connecting (`ChainState.CrashRun`).
- The pool of orphan blocks is described as limited to 100 blocks. It remembers its oldest block even when that block has
  left, and then evicts nothing: the limit holds exactly when what is remembered is not stale (`OrphanBlocks.Limit`), and
  `OrphanBlocks.OverTheLimit` passes it.
- A compressed public key is not checked for an abscissa below P (`PublicKeys.CompressedReduced`).
- `Sqrt` in place overwrites its argument before reading it (`SquareRoots.InPlaceRoot`).
- The subsidy is described as halved per interval but is attenuated to 94.162 % at each doubling of the interval count
  (`Subsidies.Subsidy`).

`dafny verify dfyconfig.toml` checks the whole project.

## Model

| member | source | states |
|---|---|---|
| `FieldMul.MulColumnsValue` | pocec/field.go:635-816 | the nineteen 64-bit columns of word products never wrap for magnitude 8 and, read in base 2^26, are exactly the product of the two numbers |
| `FieldMul.SquareColumnsAgree` | pocec/field.go:915-1049 | the merged columns of squaring equal the columns of multiplying a value by itself |
| `FieldMul.CarryChain` | pocec/field.go:635-816 | the carry chain turns columns into base 2^26 digits without losing anything and without wrapping a 64-bit word |
| `FieldMul.Fold` | pocec/field.go:842-866 | folding the high half with 2^256 = 4294968273 (mod P) keeps every intermediate in 64 bits and the value modulo P |
| `FieldMul.ReduceCorrect` | pocec/field.go:820-895 | reduction returns words of magnitude 1 congruent to the columns modulo P |
| `FieldOps.MulWordsCorrect` | pocec/field.go:635-895 | for every pair of magnitude at most 8 the result has magnitude 1 and is congruent to the product |
| `FieldOps.Mul` | pocec/field.go:635-895 | Mul2 as an operation on represented values and magnitudes |
| `FieldOps.SquareWordsIsMulWords` | pocec/field.go:915-1128 | SquareVal(x) gives the very words of Mul2(x, x) |
| `FieldOps.Square` | pocec/field.go:915-1128 | SquareVal as an operation on represented values and magnitudes |
| `FieldOps.NegateWordsValue` | pocec/field.go:482-513 | negation at any magnitude up to 62 does not wrap and is the negative modulo P |
| `FieldOps.Negate` | pocec/field.go:482-513 | the magnitude of a negation is one more |
| `FieldOps.Add` | pocec/field.go:544-584 | magnitudes add and no word wraps |
| `FieldOps.MulIntWordsValue` | pocec/field.go:593-613 | scaling by a small integer scales the number exactly |
| `FieldOps.MulInt` | pocec/field.go:593-613 | the magnitude is multiplied and no word wraps |
| `FieldNormalize.AllOnes` | pocec/field.go:333-337 | the conjunction of the middle words has all 26 bits set exactly when each word has |
| `FieldNormalize.ExcessMeaning` | pocec/field.go:327-344 | the branch-free test yields one exactly when the number is at least the prime |
| `FieldNormalize.NormalizeWordsCorrect` | pocec/field.go:262-381 | for magnitude up to 32 the result is the canonical residue, with no wrap on the way |
| `FieldNormalize.Normalize` | pocec/field.go:262-381 | normalizing keeps what is represented and returns canonical words |
| `FieldNormalize.CanonicalEqual` | pocec/field.go:465-475 | normalized words are equal exactly when the numbers are congruent |
| `FieldNormalize.DigitsUnique` | pocec/field.go:465-475 | words in range with the same number are the same words |
| `FieldNormalize.IsZeroMeaning` | pocec/field.go:444-451 | IsZero on normalized words means the number zero |
| `FieldBytes.SetBytesValue` | pocec/field.go:202-227 | the packed words spell the big-endian number |
| `FieldBytes.PutBytesValue` | pocec/field.go:391-428 | the unpacked bytes spell the words |
| `FieldBytes.PutBytesSetBytes` | pocec/field.go:202-227 | PutBytes undoes SetBytes on every 32-byte string |
| `FieldBytes.SetBytesPutBytes` | pocec/field.go:391-428 | SetBytes undoes PutBytes on all words in range |
| `FieldPow.InverseWords` | pocec/field.go:1135-1237 | the whole chain of squarings and multiplications is the power P - 2, every intermediate within the magnitude limit |
| `FieldPow.FieldVal.Inverse` | pocec/field.go:1135-1237 | Inverse in place |
| `FieldPow.FieldVal.SqrtVal` | pocec/field.go:1250-1337 | the byte-wise square and multiply is the power (P + 1) / 4 when destination and source differ, and one when they are the same object |
| `FieldPow.FieldVal.Sqrt` | pocec/field.go:1350-1352 | the in-place form always stores one |
| `SquareRoots.SqrtExactly` | pocec/field.go:1239-1250 | the power (P + 1) / 4 squares back to v exactly when v has a square root |
| `SquareRoots.RootOfSquare` | pocec/field.go:1239-1250 | the power (P + 1) / 4 of a square is a root of it |
| `SquareRoots.RootsOpposite` | pocec/pubkey.go:38-56 | two roots of the same number are equal or opposite |
| `SquareRoots.InPlaceRoot` | pocec/field.go:1350-1352 | what the in-place Sqrt stores is a root exactly for the value one; for four it is not |
| `Jacobian.DoubleZ1EqualsOne` | pocec/pocec.go:489-533 | doubling with z = 1 yields the tangent-law double, also when outputs overlap inputs |
| `Jacobian.DoubleGeneric` | pocec/pocec.go:539-582 | doubling with any z yields the tangent-law double, also when outputs overlap inputs |
| `Jacobian.DoubleJacobian` | pocec/pocec.go:586-607 | the dispatcher doubles every point, including infinity, and leaves its inputs the same up to normalization |
| `Jacobian.AddZ1AndZ2EqualsOne` | pocec/pocec.go:133-192 | adds two points with z = 1 by the chord-and-tangent law |
| `Jacobian.AddZ1EqualsZ2` | pocec/pocec.go:199-260 | adds two points with equal z by the chord-and-tangent law |
| `Jacobian.AddZ2EqualsOne` | pocec/pocec.go:268-338 | mixed addition by the chord-and-tangent law |
| `Jacobian.AddGeneric` | pocec/pocec.go:344-413 | general addition by the chord-and-tangent law |
| `Jacobian.AddJacobian` | pocec/pocec.go:417-457 | whichever routine is chosen the result denotes the same sum, for all points and for overlapping arguments |
| `CurveGroup.ZMultAdd` | pocec/pocec.go:773-777 | multiples by any two integers add up |
| `ScalarMultiplication.CurvePointsAreGood` | pocec/pocec.go:586-595 | no point of the curve is its own negation, so the tests for y = 0 single out infinity |
| `ScalarMultiplication.FromNumber` | pocec/pocec.go:82-88 | conversion of a number of at most 32 bytes to field words, padded on the left |
| `ScalarMultiplication.JacobianToAffine` | pocec/pocec.go:92-113 | Jacobian coordinates convert back to the affine point, infinity to (0, 0) |
| `ScalarSplit.SplitRepresents` | pocec/pocec.go:635-668 | k = k1 + k2 * lambda modulo N with both halves short, for every k |
| `ScalarSplit.SplitK` | pocec/pocec.go:635-668 | the split with signs and minimal bytes |
| `ScalarSplit.Lattice` | pocec/pocec.go:955-960 | the lattice constants: orthogonal to (1, lambda) and of determinant N |
| `ScalarSplit.ModuloReduce` | pocec/pocec.go:673-684 | strings of at most 32 bytes are kept, longer ones reduced modulo N |
| `NonAdjacentForm.NafByte` | pocec/pocec.go:706-748 | one byte with its carry in and out, its digits sparse |
| `NonAdjacentForm.NAF` | pocec/pocec.go:693-761 | the two digit strings are disjoint, their difference is k, no two neighbouring digits are nonzero, for strings of any length |
| `ScalarMultiplication.AddByte` | pocec/pocec.go:836-858 | eight doublings with the digits read off the top of four shift registers |
| `ScalarMultiplication.AddScalars` | pocec/pocec.go:803-860 | the left-to-right loop over both recoded scalars, the shorter one padded |
| `ScalarMultiplication.MakeOperands` | pocec/pocec.go:778-802 | P, its image under the endomorphism and their negations, flipped by sign |
| `ScalarMultiplication.ScalarsModN` | pocec/pocec.go:673-684 | scalars that agree modulo N give the same multiple |
| `ScalarMultiplication.ScalarMult` | pocec/pocec.go:765-865 | k * P for every byte string k and every point of the curve |
| `BasePointTable.BasePointOnCurve` | pocec/pocec.go:930-931 | the base point satisfies the curve equation |
| `BasePointTable.GetDoublingPoints` | pocec/gensecp256k1.go:26-38 | entry i denotes 2^i * G |
| `BasePointTable.WindowPoint` | pocec/gensecp256k1.go:54-62 | the window entry for i is i times the window's unit, and normalizing the doubling points in place keeps them |
| `BasePointTable.SerializedBytePoints` | pocec/gensecp256k1.go:43-79 | entry 256 * w + i of the buffer denotes i * 256^(31 - w) * G |
| `BasePointTable.EntryRoundTrip` | pocec/precompute.go:42-66 | what is written at an offset is what is read there |
| `BasePointTable.LoadBytePoints` | pocec/precompute.go:42-66 | the loaded table has every entry at its window and index |
| `BasePointTable.ScalarBaseMult` | pocec/pocec.go:870-887 | k * G for every byte string k |
| `BasePointTable.BaseMultAgrees` | pocec/pocec.go:870-887 | with the table generated, serialized and loaded again the windowed routine agrees with the general one on every byte string |
| `PublicKeys.IsOnCurve` | pocec/pocec.go:118-126 | tests the curve equation modulo P |
| `PublicKeys.DecompressPoint` | pocec/pubkey.go:27-59 | returns the one root of the asked parity; fails with the first error exactly when there is no root, with the second exactly when the only root is zero and odd was asked |
| `PublicKeys.SolutionUnique` | pocec/pubkey.go:38-56 | over one abscissa at most one ordinate has a given parity |
| `PublicKeys.ParsePubKey` | pocec/pubkey.go:79-135 | accepts exactly the strings that stand for a key, and returns it |
| `PublicKeys.EncodesUnique` | pocec/pubkey.go:79-135 | a string stands for at most one key |
| `PublicKeys.SerializeEncodes` | pocec/pubkey.go:148-176 | all three serializations of a valid key stand for it |
| `PublicKeys.EncodesSerialize` | pocec/pubkey.go:148-176 | an accepted string is the serialization, in its own format, of what it stands for |
| `PublicKeys.CompressedReduced` | pocec/pubkey.go:115-128 | a compressed key is a point of the curve exactly when its abscissa is below P |
| `PublicKeys.UnreducedAccepted` | pocec/pubkey.go:115-128 | a compressed key with abscissa P + 1 is accepted |
| `DerSignatures.ReadIntegers` | pocec/signature.go:93-178 | the cursor finds two integers exactly when the string is laid out, with the wrapping byte addition on the length |
| `DerSignatures.ParseSig` | pocec/signature.go:93-206 | accepts exactly the laid-out strings with both integers in range, and in strict mode canonically padded |
| `DerSignatures.CanonicalizeIntCanonical` | pocec/signature.go:228-254 | canonical bytes are canonically padded and spell the integer |
| `DerSignatures.CanonicalIsUnique` | pocec/signature.go:228-254 | canonically padded bytes are the canonical bytes of their integer |
| `DerSignatures.ParseSerialized` | pocec/signature.go:47-72 | parsing a serialized signature gives back R and the low form of S |
| `DerSignatures.SerializeParsed` | pocec/signature.go:47-72 | a strictly accepted string with low S serializes to its own trimmed bytes |
| `Ledger.ViewSnoc` | blockchain/txlookup.go:31-69 | one more transaction makes its own entry fresh and marks what it spends in all others |
| `TxLookup.TxStore.ConnectTransaction` | blockchain/txlookup.go:38-66 | stops exactly at an overwritten unspent transaction or a missing output; otherwise its own entry is fresh and the others are marked unless it is a coinbase, so a valid transaction leads from view to view exactly when no further coinbase input was requested |
| `TxLookup.TxStore.ConnectTransactions` | blockchain/txlookup.go:35-69 | succeeds exactly when every transaction applies to what the store shows; then the store shows the branch with the block, and is its view exactly when the branch is in step |
| `TxLookup.SeenIsView` | blockchain/txlookup.go:35-123 | the store shows the view of a hash exactly when every output an undone coinbase left marked is spent on the branch and every output a coinbase of the branch spends is marked for another reason |
| `TxLookup.SeenSnoc` | blockchain/txlookup.go:38-66 | one more connected transaction changes what the store shows by its fresh entry and the marks of an ordinary transaction, by nothing else for a coinbase |
| `TxLookup.TxStore.DisconnectTransaction` | blockchain/txlookup.go:77-119 | undoing a transaction of the main chain leaves the earlier view with the marks of all undone coinbases; from the view it gives back the earlier view exactly when no further input of a coinbase was requested |
| `TxLookup.TxStore.DisconnectTransactions` | blockchain/txlookup.go:74-123 | the same for a block: disconnect undoes connect exactly when the coinbase spends nothing that was requested |
| `TxLookup.LeftIsUnspent` | blockchain/txlookup.go:77-119 | what an undone coinbase leaves marked was unspent before it, so every such mark differs from the view |
| `TxLookup.Database.FetchLastFullySpentTxBeforeHeight` | database/ldb/tx.go:144-181 | the last record below the height |
| `TxLookup.LastInstance` | database/db.go:117-118 | for a transaction of the main chain that record is the previous transaction of the same hash |
| `TxLookup.TipView` | database/db.go:106-115 | the database's answer for the tip is the view of the main chain |
| `TxLookup.FetchTxStoreMain` | blockchain/txlookup.go:129-181 | with spent transactions the store is the tip view; without them it may leave out fully spent ones |
| `TxLookup.ServesSpendable` | blockchain/txlookup.go:201-209 | leaving them out changes nothing about which outputs are spendable |
| `TxLookup.Detach` | blockchain/txlookup.go:223-234 | disconnecting blocks newest first leaves the view at the fork with the marks of the undone coinbases, and exactly that view when they marked nothing requested |
| `TxLookup.Attach` | blockchain/txlookup.go:246-257 | connecting blocks oldest first stops exactly at an inapplicable block; otherwise a flag is set exactly when the output is spent below the fork, by an undone coinbase or by an ordinary transaction of the branch, and the store is the view exactly when the branch is in step |
| `TxLookup.MovedPlain` | blockchain/txlookup.go:190-259 | a branch is in step when no coinbase that is undone or applied spends anything requested |
| `TxLookup.FetchTxStore` | blockchain/txlookup.go:190-259 | for every main chain, fork and branch: at the tip the store serves the view; elsewhere it is the view exactly when the branch is in step, and fails exactly at a block that does not apply |
| `ChainView.FetchTxStoreAt` | blockchain/txlookup.go:190-259 | the same for every node of the tree, with the fork found by walking up: the store is the view of replaying from the root exactly when the branch is in step, always when no block moved over has a coinbase that spends anything requested, and without condition at the best node |
| `TxTables.DoSpend` | database/ldb/tx.go:535-569 | marks all a valid transaction spends, skipping the null index, and moves exactly the transactions whose every stored bit is set to the spent table |
| `TxTables.WholeMeans` | database/ldb/block.go:151-165 | all stored bits are set exactly when all outputs are spent, except for a transaction at height 0 whose outputs do not fill its bytes |
| `TxTables.RecordedSnoc` | database/ldb/tx.go:660-700 | the records after one more transaction are those before and the hash whose last output it spent |
| `TxTables.InsertTx` | database/ldb/block.go:150-234 | storing a valid transaction keeps the tables the reflection of the chain, exactly when it does not repeat the hash of one at height 0 that is never recorded |
| `ConnectedChain.InsertBlock` | database/ldb/block.go:150-234 | storing a valid block keeps the tables the reflection of the chain, the first block at height 0 included |
| `TxUndo.LiftedBlock` | database/ldb/tx.go:573-590 | with the marks of a block lifted its own entries are fresh and all others as before it |
| `TxUndo.BlockRecords` | database/ldb/tx.go:660-700 | over a block each hash gains at most the record of its latest transaction |
| `TxUndo.UnSpend` | database/ldb/tx.go:573-656 | lifts the marks of one transaction of the block, in forward order, taking records back to the table of unspent transactions |
| `TxUndo.DeleteBlock` | database/ldb/block.go:259-395 | deleting a stored block gives back tables that reflect the chain before it |
| `BlockTrees.PathStable` | blockchain/blocktree.go:182-196 | attaching a leaf changes no path |
| `BlockTrees.LeafWellFormed` | blockchain/blocktree.go:182-196 | attaching keeps every sum the sum of the targets on the path |
| `BlockTrees.BetterIsStrictTotal` | blockchain/chain.go:603-636 | the comparison is a strict total order on distinct blocks |
| `BlockTrees.DescendantBetter` | blockchain/chain.go:603-615 | a node beats each of its proper ancestors |
| `BlockTrees.BestDetermined` | blockchain/chain.go:603-636 | trees of the same headers are equal and have the same best node |
| `ChainState.Chain.AttachBlockNode` | blockchain/blocktree.go:182-196 | fails exactly when the parent is unknown; otherwise adds the leaf with its sum |
| `ChainState.Chain.ConnectBlock` | blockchain/chain.go:251-325 | connects exactly on top of the best node when nothing fails; a failure changes nothing |
| `ChainState.Chain.DisconnectBlock` | blockchain/chain.go:335-367 | keeps flags, database and cache consistent with the new best node |
| `ChainState.Chain.GetReorganizeNodes` | blockchain/chain.go:215-246 | the two lists are exactly the two sides above the fork, in the right order |
| `ChainState.Chain.NothingToDetach` | blockchain/chain.go:236-243 | the detach list is empty exactly when the node descends from the best node |
| `ChainState.Chain.ReorganizeChain` | blockchain/chain.go:386-466 | wherever it stops the chain is consistent; when it gets through, the triggering node is the tip; it crashes on its log line exactly when it gets through with an empty detach list; with every block at hand it fails only by a fault, and a failing connection leaves the fork as the best node |
| `ChainState.Chain.ConnectBestChain` | blockchain/chain.go:468-599 | consistency in every outcome; the best node stays the maximum of the tree when nothing fails; off the best node, without a fault, it crashes exactly when the new node descends from the best node, which was then not the maximum |
| `ChainState.CrashRun` | blockchain/chain.go:442-463 | a run of three blocks reaches the crash: the reorganization to the second fails after its disconnection |
| `ChainState.Chain.ProcessAll` | blockchain/chain.go:468-599 | a parent-first run never crashes; without a fault it holds exactly its headers and ends at their maximum |
| `ChainState.ArrivalOrderIrrelevant` | blockchain/chain.go:468-636 | two parent-first orders of the same headers end at the same tip |
| `BlockProcessing.Driver.MaybeAcceptBlock` | blockchain/accept.go:19-86 | an accepted block joins the tree under its parent; a refused one changes nothing or only joins the tree |
| `BlockProcessing.Driver.ProcessOrphans` | blockchain/process.go:31-52 | consistent wherever it stops; when it gets through it has moved exactly the orphans below the hash into the tree and left none whose parent is in the tree |
| `OrphanBlocks.OrphanBlockPool.AddOrphanBlock` | blockchain/orphanblockpool.go:50-78 | expired blocks go; when the pool is full the earliest to expire makes room, or the block under the remembered hash, or none if what is remembered is gone |
| `OrphanBlocks.Limit` | blockchain/orphanblockpool.go:65-69 | the pool stays within its limit exactly when it is not full or what it remembers as its oldest is not stale |
| `OrphanBlocks.OverTheLimit` | blockchain/orphanblockpool.go:50-78 | a run of additions, one block expiring on the way, ends with one block more than the limit |
| `BlockProcessing.Driver.ProcessBlock` | blockchain/process.go:54-152 | consistent whatever fails; known blocks change nothing, blocks without a parent wait, others join together with the orphans below them |
| `BlockProcessing.Driver.ProcessRun` | blockchain/process.go:54-152 | every run in any order, through all failures, keeps tree and orphans consistent; without failures and dropped orphans they account for exactly the headers received and the best node is the maximum |
| `BlockProcessing.AnyOrder` | blockchain/process.go:54-152 | two runs over the same headers in any two orders end with the same tree, orphans and best node |
| `BlockProcessing.TwoOrders` | blockchain/process.go:54-152 | two drivers given the same headers in two orders end with the same tree, orphans and best node |
| `Supply.Conservation` | blockchain/validate.go:1366-1482 | a valid transaction changes the total unspent value by exactly its outputs minus its inputs |
| `Supply.ConservationAtMost` | blockchain/validate.go:1366-1482 | without the rule against overwriting, a transaction adds at most its outputs less its inputs |
| `Supply.SpendAll` | blockchain/validate.go:1296-1308 | spending distinct unspent outputs removes exactly their value |
| `Subsidies.CalcCoinbaseSubsidy` | blockchain/validate.go:505-530 | the loop computes the attenuated subsidy of the height |
| `Subsidies.SubsidyNeverRises` | blockchain/validate.go:505-530 | the subsidy never rises with the height |
| `Subsidies.CalcBlockSubsidy` | blockchain/validate.go:416-566 | the three shares never exceed the subsidy and lose fewer than four units |
| `BlockChecks.CheckTransactionInputs` | blockchain/validate.go:1366-1482 | succeeds exactly when every input is there, mature and unspent and the inputs cover the outputs in range; the fee is the difference and the inputs are marked |
| `BlockChecks.CollectInputs` | blockchain/txlookup.go:264-318 | entries from the same block serve only later references, every other hash is asked for |
| `BlockChecks.Merged` | blockchain/txlookup.go:320-328 | entries from the block and from what the store shows together serve every reference |
| `BlockChecks.ReferencePays` | blockchain/validate.go:1366-1482 | every output a checked block refers to is shown unspent at that point of the history and worth what was counted |
| `BlockChecks.CheckedExtends` | blockchain/validate.go:1484-1637 | as far as the store shows, a checked block extends the history transaction by transaction: nothing shown spent is spent and nothing shown unspent is overwritten |
| `BlockChecks.CheckedAtTip` | blockchain/validate.go:1484-1637 | at the tip that is a valid extension |
| `MoneyBound.CheckDupTx` | blockchain/validate.go:1258-1294 | passes exactly when the store shows every hash of the block as fully spent |
| `MoneyBound.NoDuplicates` | blockchain/validate.go:1258-1294 | on what the store shows of the branch that is the rule that no transaction overwrites one that is not fully spent |
| `MoneyBound.CheckCoinbase` | blockchain/validate.go:233-282 | the reward is the shares plus, at the initial height, the allocations, less than four units below the allowance; it fails exactly when an allocation is not paid or the reward is out of range |
| `MoneyBound.CheckCoinbaseInputs` | blockchain/validate.go:155-230 | passes exactly when every further coinbase input is there, mature, unspent and not spent by the block, and the script rules accept |
| `MoneyBound.CheckCoinbaseValue` | blockchain/validate.go:1571-1637 | with a key it passes exactly when those inputs are good and the coinbase pays at most the reward and the fees, in range; without one when the sum is in range |
| `MoneyBound.BlockTotal` | blockchain/validate.go:1484-1637 | a block creates its coinbase outputs and destroys its fees and coinbase inputs |
| `MoneyBound.CheckConnectBlock` | blockchain/validate.go:1484-1637 | a block with a key that passes, on any branch, has entries the store shows or its own, affordable inputs and a coinbase within allowance and fees; on a branch in step it would pass on a main chain of the same history; a block of a coinbase alone passes off the tip exactly when it applies, overwrites nothing shown and its coinbase is good |
| `Branches.ExtendsExactly` | blockchain/validate.go:1484-1637 | a transaction the store lets pass is valid exactly when it spends nothing an earlier coinbase of the branch spent and, if it repeats a hash, every output an undone coinbase left marked there is spent |
| `Branches.BranchValid` | blockchain/chain.go:407-413 | a branch that passed is valid exactly when that holds at each of its positions |
| `Branches.BranchStep` | blockchain/validate.go:1484-1637 | on any branch a transaction that passes adds at most its outputs less its ordinary inputs, the further inputs of the branch's coinbases counted as never spent |
| `Branches.StripTotal` | blockchain/validate.go:1484-1637 | counting them as never spent leaves at least as much |
| `MoneyBound.PassedExtends` | blockchain/validate.go:1484-1637 | such a block extends a valid history to a valid one and raises the unspent value by at most its allowance |
| `MoneyBound.ChainBound` | blockchain/validate.go:1484-1637 | a chain of blocks that each passed on the chain before it is valid and its unspent value is at most the start plus the allowances of all heights |
| `MoneyBound.BranchBound` | blockchain/chain.go:407-413 | a branch whose blocks all passed, in step or not, is within its allowances and passes throughout as far as the store shows |
| `ConnectedChain.Node.ProcessBlock` | blockchain/process.go:54-152 | a block without proof is only checked, one without a key is never connected; a connected block passed the checks, and chain, tables and bound stay sound, from a first block at height 0 on |
| `ConnectedChain.Node.ProcessAll` | blockchain/process.go:54-152 | whatever is handed in, the chain stays valid, the tables reflect it and the unspent value stays within the allowances |
| `ConnectedChain.Node.Reorganize` | blockchain/chain.go:386-440 | when the checks fail nothing changes; whatever happens afterwards the value of the chain stays within the allowances, and on a sound branch chain and tables stay sound wherever deleting or storing stops |
| `ConnectedChain.CheckBranch` | blockchain/chain.go:407-413 | a branch whose blocks all pass before a reorganization is within its allowances, and valid exactly when it is sound; branches in step are |
| `ConnectedChain.PlainBranch` | blockchain/chain.go:407-413 | a branch is in step when no coinbase that is undone or applied spends what a later block asks for |
| `ChainWitnesses.TwoSpenders` | blockchain/chain.go:407-413 | two coinbases of one branch spend the same pooling output: all checks before the reorganization pass and the branch is not valid |
| `ChainWitnesses.KeylessTemplate` | blockchain/validate.go:1594-1598 | checking a template without a key passes although its coinbase pays the largest amount there is |
| `ChainWitnesses.FirstStays` | database/ldb/block.go:151-165 | all outputs of a transaction at height 0 are spent and the table of unspent transactions still holds it |
| `TransactionPool.NoConflicts` | blockchain/txpool.go:282-313 | with a correct index no two pooled transactions share an input |
| `TransactionPool.TxPool.RemoveTransaction` | blockchain/txpool.go:150-180 | removes exactly the transaction and its transitive redeemers, keeps the index exact, terminates on the acyclic spend graph |
| `TransactionPool.TxPool.RemoveDoubleSpends` | blockchain/txpool.go:267-275 | removes exactly the conflicting transactions and what depends on them |
| `TransactionPool.TxPool.CheckPoolDoubleSpend` | blockchain/txpool.go:424-437 | passes exactly when no pooled transaction shares an input |
| `TransactionPool.TxPool.AddTransaction` | blockchain/txpool.go:282-313 | pools the transaction and keeps the index exact |
| `TransactionPool.TxPool.MaybeAcceptTransaction` | blockchain/txpool.go:515-761 | accepts exactly a new ordinary transaction with all parents there and no input spent on the chain or in the pool that the other rules accept; otherwise changes nothing |
| `TransactionPool.TxPool.AddOrphan` | blockchain/orphantxpool.go:66-104 | keeps the orphan, evicting at most one other |
| `TransactionPool.TxPool.ProcessOrphans` | blockchain/txpool.go:786-830 | terminates by orphans then work list; afterwards every orphan that waited still misses a parent |
| `TransactionPool.TxPool.ProcessTransaction` | blockchain/txpool.go:852-901 | no orphan is left stranded: each still waits for a parent that is neither pooled nor on the chain |
| `TransactionPool.TxPool.SyncAttachBlock` | blockchain/txpool.go:968-978 | only ordinary transactions are looked at: no pooled transaction shares an input with those, none of those is left in the pool or among the orphans, and no orphan that waited for one is stranded; only survivors and clean former orphans stay, for a block that fits all survivors do, and then nothing shares an input with the whole block exactly when no survivor spends what its coinbase spends |
| `TransactionPool.CoinbaseOverlooked` | blockchain/txpool.go:968-978 | after a block of a coinbase alone a pooled transaction shares its input, and an orphan that waited for it stays an orphan with all parents known |
| `TransactionPool.TxPool.SyncDetachBlock` | blockchain/txpool.go:980-992 | the index stays exact, only clean ordinary transactions of the block enter, and neither a refused transaction nor anything that depends on it is left or comes back |
| `ScriptValidator.StepInv` | blockchain/scriptval.go:38-181 | every step of every interleaving keeps each dispatched item with exactly one worker or received, and every verdict true |
| `ScriptValidator.StepShrinks` | blockchain/scriptval.go:127-181 | every step leaves less to do |
| `ScriptValidator.NoDeadlock` | blockchain/scriptval.go:127-181 | while Validate runs a step is possible; after it returned every remaining worker can move |
| `ScriptValidator.EveryRunEnds` | blockchain/scriptval.go:127-181 | every interleaving is finite and ends with Validate returned, all workers gone, and success exactly when every item is valid |
| `StakingRank.FindCoefficient` | database/sort.go:174-179 | the coefficient does not depend on the order in which the periods are visited |
| `StakingRank.Totals` | database/sort.go:128-206 | fails exactly on a stake that is out of range, too early or expired; otherwise totals value and weight |
| `StakingRank.EligibleMeans` | database/sort.go:155-171 | with the sums taken in 64 bits a stake is eligible exactly in its rewarded period, and never when the end of that period does not fit |
| `StakingRank.BeforeIsStrictTotal` | database/sort.go:46-85 | the order is strict and total on pairs |
| `StakingRank.DescendingUnique` | database/sort.go:211 | a set of pairs has one descending arrangement |
| `StakingRank.SortMap` | database/sort.go:114-226 | succeeds exactly when all stakes can be ranked; the result is the ranking, in reward mode its longest part of at most 100 entries without a split tie |
| `StakingRank.SortMapDeterministic` | database/sort.go:114-226 | two calls on the same map agree |
| `StakingRank.NoTieSplit` | database/sort.go:213-223 | no entry left out equals one kept in value and weight |
| `StakingRank.CalcNodeReward` | blockchain/template.go:736-746 | fails exactly when the product leaves 128 bits, the total is zero or the share is no amount; otherwise the rounded share |
| `StakingRank.SplitReward` | blockchain/template.go:608-681 | fails exactly when the total is zero or too large or a share on the way cannot be computed; otherwise payouts are the rounded shares, and payouts and change are exactly the reward |
| `StakingRank.BreakSkipsOnlyZeros` | blockchain/template.go:653-656 | stopping at the first zero share skips nobody who would be paid |
| `StakingRank.NoOverflow` | blockchain/template.go:736-746 | for stakes in range the product of reward and weight stays within 128 bits |
| `StakingRank.RankedFits` | blockchain/template.go:608-681 | on the list SortMap returns nothing overflows |
| `StakingRank.RewardRanked` | blockchain/template.go:608-681 | over the ranking of the stakes a rank is paid exactly when its rounded share is not zero; it fails exactly when a stake cannot be ranked or the ranks weigh nothing |

## Left out

- The primality of P, the group law and the endomorphism fact are hypotheses, as said above.
- ScalarMultiplication.ScalarMult: the base is a point of the curve; the code also accepts (0, 0) and points off the curve,
  for which it promises nothing, and affine coordinates of more than 32 bytes are left out.
- `Add` and `Double` on affine big integers, which only wrap the Jacobian routines.
- ECDSA signing and verification, RFC 6979 nonces, compact signatures, encryption and hashing.
- The base64 and zlib wrapping of the precomputed table; the serialized bytes are modelled.
- The encoding of the LevelDB tables, apart from the bytes of the spent flags.
- ConnectedChain.Node.ProcessBlock: no transaction has the hash of one in a first block at height 0 that is never recorded;
  the coinbase there carries its height, which the code checks against the height of the block.
- ConnectedChain.Node.ProcessAll: a run of submissions; reorganizations are single steps that keep the same invariant.
- ConnectedChain.Node.Reorganize: after a branch that passed and is not sound only the bound on the value is promised.
- The staking variants of connect and disconnect, which have the shape of the ordinary ones, and the staking pool store.
- `expandRootBlockNode`: the root of the block tree is fixed.
- The double-mining detector, the proposal pool, governance, the address index, locks, clocks, error caches and logging.
- Script classes, witnesses, sequence locks and signature-operation counts; they only reject more blocks.
- BlockChecks.CheckTransactionInputs: pooling scripts are a given set of outputs, because script classes are not modelled.
- MoneyBound.CheckConnectBlock: says exactly when a block is accepted only for a coinbase alone off the tip; script classes
  are a parameter, and the other unmodelled rules only reject more.
- MoneyBound.CheckCoinbase: an allocation is matched by value only, because output scripts are not modelled.
- MoneyBound.CheckCoinbaseInputs: the outcome of the script class and binding checks is a parameter.
- MoneyBound.CheckCoinbaseValue: the outcome of the script class and binding checks is a parameter.
- TransactionPool.TxPool.MaybeAcceptTransaction: the outcome of the rules on fees, priorities, rates and scripts is a
  parameter.
- TransactionPool.TxPool.SyncAttachBlock: that all survivors stay is stated when no pooled transaction waits for an orphan,
  because whether an orphan enters the pool, to leave with its dependents, is decided by rules that are not modelled.
- TransactionPool.TxPool.SyncDetachBlock: does not promise that parents of pooled transactions are known, because the code
  drops a transaction with missing parents without removing what depends on it.
- OrphanBlocks.OrphanBlockPool.AddOrphanBlock: the clock is read once per call.
- The search for mature pool outputs and the script building of the staking reward transaction.
- Mempool selection for block templates, which uses floating-point priorities.
- Networking, RPC, configuration, wallet and storage plumbing.
